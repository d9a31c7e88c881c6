/**
 Remote paths: which strings `RemotePath::new` accepts, what `join` builds, and
 the two facts the rest of the cache leans on: a path built by joins cannot leave
 its root, and "starts with `from` + `/`" means exactly "is below `from`".
 */
module RemotePaths {
  import opened Base

  /** `str::split(separator)`: always at least one part. */
  function Split(s: string, separator: char): (parts: seq<string>)
    ensures |parts| >= 1
    decreases |s|
  {
    if s == "" then [""]
    else
      var rest := Split(s[1..], separator);
      if s[0] == separator then [""] + rest else [[s[0]] + rest[0]] + rest[1..]
  }

  predicate Accepted(path: string) {
    path != "" && path[0] == '/' && ".." !in Split(path, '/')
  }

  /** `RemotePath::new` */
  function New(path: string): Result<Path> {
    if Accepted(path) then Ok(path) else Err(InvalidInput)
  }

  predicate ValidName(name: string) {
    name != "" && name != "." && name != ".." && '/' !in name && '\\' !in name
  }

  /** `trim_end_matches('/')` */
  function Trim(s: string): (t: string)
    ensures t <= s
    ensures t != "" ==> t[|t| - 1] != '/'
    ensures forall i :: |t| <= i < |s| ==> s[i] == '/'
    decreases |s|
  {
    if s != "" && s[|s| - 1] == '/' then Trim(s[..|s| - 1]) else s
  }

  /** `RemotePath::join` */
  function Join(base: Path, name: string): Result<Path> {
    if ValidName(name) then New(Child(base, name)) else Err(InvalidInput)
  }

  /** The string `join` builds when it succeeds. */
  function Child(base: Path, name: string): Path { Trim(base) + ("/" + name) }

  // ---- Splitting -------------------------------------------------------------

  lemma {:induction false} SplitConcat(a: string, b: string, separator: char)
    ensures Split(a + [separator] + b, separator) == Split(a, separator) + Split(b, separator)
    decreases |a|
  {
    var whole := a + [separator] + b;
    if a == "" {
      assert whole[1..] == b;
    } else {
      assert whole[1..] == a[1..] + [separator] + b;
      SplitConcat(a[1..], b, separator);
    }
  }

  lemma {:induction false} SplitAtom(s: string, separator: char)
    requires separator !in s
    ensures Split(s, separator) == [s]
    decreases |s|
  {
    if s != "" {
      SplitAtom(s[1..], separator);
      assert [s[0]] + s[1..] == s;
    }
  }

  lemma {:induction false} TrimParts(s: string)
    ensures forall part :: part in Split(Trim(s), '/') ==> part in Split(s, '/') || part == ""
    decreases |s|
  {
    if s != "" && s[|s| - 1] == '/' {
      var front := s[..|s| - 1];
      TrimParts(front);
      assert s == front + ['/'] + "";
      SplitConcat(front, "", '/');
    }
  }

  // ---- Join ------------------------------------------------------------------

  /** On an accepted base, `join` succeeds exactly on valid names, and what it builds is accepted again. */
  lemma JoinAccepted(base: Path, name: string)
    requires Accepted(base)
    ensures Join(base, name).Ok? <==> ValidName(name)
    ensures ValidName(name) ==> Join(base, name) == Ok(Child(base, name)) && Accepted(Child(base, name))
  {
    if ValidName(name) {
      var child := Child(base, name);
      assert child == Trim(base) + ['/'] + name;
      SplitConcat(Trim(base), name, '/');
      SplitAtom(name, '/');
      TrimParts(base);
      assert child[0] == '/' by {
        if Trim(base) != "" { assert Trim(base)[0] == base[0]; }
      }
    }
  }

  /**
   Which names `join` accepts: all but the empty one, the two dots, and those with a separator. What it builds is the
   base, less any slashes at its end, a slash and the name.
   */
  lemma JoinExact(base: Path, name: string)
    requires Accepted(base)
    ensures Join(base, name).Ok? <==> name != "" && name != "." && name != ".." && '/' !in name && '\\' !in name
    ensures Join(base, name).Err? ==> Join(base, name) == Err(InvalidInput)
    ensures Join(base, name).Ok? && base[|base| - 1] != '/' ==> Join(base, name).value == base + "/" + name
    ensures Join(base, name).Ok? && base == "/" ==> Join(base, name).value == "/" + name
    ensures Join(base + "/", name) == Join(base, name) || !Accepted(base + "/")
  {
    JoinAccepted(base, name);
    if base[|base| - 1] != '/' {
      TrimFixed(base);
      assert base + ("/" + name) == base + "/" + name;
    }
    if base == "/" { assert Trim("/") == "" by { assert "/"[..0] == ""; } }
    assert (base + "/")[..|base + "/"| - 1] == base;
    if Accepted(base + "/") { JoinAccepted(base + "/", name); }
  }

  /** Parts with slashes between them. */
  function Slashed(parts: seq<string>): string {
    if parts == [] then "" else if |parts| == 1 then parts[0] else parts[0] + ['/'] + Slashed(parts[1..])
  }

  lemma {:induction false} SplitSlashed(parts: seq<string>)
    requires parts != [] && forall i :: 0 <= i < |parts| ==> '/' !in parts[i]
    ensures Split(Slashed(parts), '/') == parts
    decreases |parts|
  {
    SplitAtom(parts[0], '/');
    if |parts| > 1 {
      SplitSlashed(parts[1..]);
      SplitConcat(parts[0], Slashed(parts[1..]), '/');
      assert [parts[0]] + parts[1..] == parts;
    } else {
      assert parts == [parts[0]];
    }
  }

  /** Which paths are accepted: those that begin with a slash and have no part that is the two dots. */
  lemma NewExact(parts: seq<string>)
    requires parts != [] && forall i :: 0 <= i < |parts| ==> '/' !in parts[i]
    ensures New(Slashed(parts)) ==
      if |parts| > 1 && parts[0] == "" && ".." !in parts then Ok(Slashed(parts)) else Err(InvalidInput)
  {
    SplitSlashed(parts);
    var path := Slashed(parts);
    if |parts| > 1 && parts[0] == "" {
      assert path == ['/'] + Slashed(parts[1..]);
    } else if parts[0] != "" {
      assert path[0] == parts[0][0] && parts[0][0] in parts[0];
    }
  }

  /** A joined path determines its slash-trimmed base and its last component. */
  lemma JoinInjective(base: Path, name: string, base': Path, name': string)
    requires ValidName(name) && ValidName(name')
    requires Child(base, name) == Child(base', name')
    ensures Trim(base) == Trim(base') && name == name'
  {
    var b, b', c := Trim(base), Trim(base'), Child(base, name);
    assert c[|b|] == '/' && c[|b'|] == '/';
    assert forall i :: |b| < i < |c| ==> c[i] == name[i - |b| - 1];
    assert forall i :: |b'| < i < |c| ==> c[i] == name'[i - |b'| - 1];
    assert |b| == |b'|;
    assert b == c[..|b|] && b' == c[..|b|];
    assert name == c[|b| + 1..] && name' == c[|b| + 1..];
  }

  lemma TrimFixed(s: string)
    requires s == "" || s[|s| - 1] != '/'
    ensures Trim(s) == s
  {
  }

  // ---- Extending a root by components ----------------------------------------

  ghost predicate ValidNames(names: seq<string>) {
    forall i :: 0 <= i < |names| ==> ValidName(names[i])
  }

  /** "/c1/c2/..." */
  function Flat(names: seq<string>): string {
    if names == [] then "" else "/" + names[0] + Flat(names[1..])
  }

  /** `root` joined with each component in turn. */
  function Extend(root: Path, names: seq<string>): Path {
    if names == [] then root
    else Child(Extend(root, names[..|names| - 1]), names[|names| - 1])
  }

  /** `path` is `root` or lies below it. */
  ghost predicate Within(root: Path, path: Path) {
    exists names :: ValidNames(names) && path == Extend(root, names)
  }

  /** `path` is reachable from `root` by one or more joins. */
  ghost predicate Below(root: Path, path: Path) {
    exists names :: ValidNames(names) && names != [] && path == Extend(root, names)
  }

  lemma WithinSelf(root: Path)
    ensures Within(root, root)
  {
    assert Extend(root, []) == root;
  }

  lemma WithinChild(root: Path, path: Path, name: string)
    requires Within(root, path) && ValidName(name)
    ensures Below(root, Child(path, name)) && Within(root, Child(path, name))
  {
    var names :| ValidNames(names) && path == Extend(root, names);
    var more := names + [name];
    assert more[..|more| - 1] == names;
    assert ValidNames(more) && Child(path, name) == Extend(root, more);
  }

  lemma {:induction false} FlatAppend(a: seq<string>, b: seq<string>)
    ensures Flat(a + b) == Flat(a) + Flat(b)
    decreases |a|
  {
    if a == [] {
      assert a + b == b;
    } else {
      assert (a + b)[1..] == a[1..] + b;
      FlatAppend(a[1..], b);
    }
  }

  lemma FlatLast(front: seq<string>, last: string)
    ensures Flat(front + [last]) == Flat(front) + ("/" + last)
  {
    FlatAppend(front, [last]);
    assert Flat([last]) == "/" + last + "";
    assert "/" + last + "" == "/" + last;
  }

  lemma ChildTrim(base: Path, name: string)
    requires ValidName(name)
    ensures Trim(Child(base, name)) == Child(base, name)
  {
    var path := Child(base, name);
    assert path[|path| - 1] == name[|name| - 1];
    assert name[|name| - 1] in name;
    TrimFixed(path);
  }

  /** A joined path is the trimmed root followed by its components. */
  lemma {:induction false} ExtendFlat(root: Path, names: seq<string>)
    requires ValidNames(names)
    ensures Trim(Extend(root, names)) == Trim(root) + Flat(names)
    ensures names != [] ==> Extend(root, names) == Trim(root) + Flat(names)
    decreases |names|
  {
    if names != [] {
      var front, last := names[..|names| - 1], names[|names| - 1];
      assert ValidName(last);
      ExtendFlat(root, front);
      FlatLast(front, last);
      assert front + [last] == names;
      ChildTrim(Extend(root, front), last);
      Assoc(Trim(root), Flat(front), "/" + last);
    }
  }

  lemma Assoc(a: string, b: string, c: string)
    ensures a + b + c == a + (b + c)
  {
  }

  /** A joined path is never its own root, so the root's cache key belongs to the root alone. */
  lemma BelowNotRoot(root: Path, path: Path)
    requires Below(root, path)
    ensures path != root
  {
    var names :| ValidNames(names) && names != [] && path == Extend(root, names);
    ExtendFlat(root, names);
    ChildTrim(Extend(root, names[..|names| - 1]), names[|names| - 1]);
    assert |Flat(names)| > 0;
  }

  /** Two component lists that print alike up to a slash agree component by component. */
  lemma {:induction false} FlatPrefix(upper: seq<string>, lower: seq<string>)
    requires ValidNames(upper) && ValidNames(lower)
    ensures Flat(upper) + "/" <= Flat(lower) <==> upper < lower
    decreases |upper|
  {
    if upper == [] {
      assert Flat(upper) + "/" == "/";
      if lower != [] { assert Flat(lower)[0] == '/'; }
    } else if lower != [] {
      var u, l := upper[0], lower[0];
      FlatPrefix(upper[1..], lower[1..]);
      var left, right := Flat(upper) + "/", Flat(lower);
      var leftRest, rightRest := Flat(upper[1..]) + "/", Flat(lower[1..]);
      assert left == "/" + u + leftRest;
      assert right == "/" + l + rightRest;
      assert leftRest[0] == '/';
      assert rightRest != "" ==> rightRest[0] == '/';
      if left <= right {
        FirstComponent(u, leftRest, l, rightRest);
        assert u == l;
        assert leftRest == left[1 + |u|..] && rightRest == right[1 + |u|..];
        assert leftRest <= rightRest;
        assert upper == [u] + upper[1..] && lower == [l] + lower[1..];
      }
      if upper < lower {
        assert u == l && upper[1..] < lower[1..];
        assert left <= right;
      }
    }
  }

  lemma FirstComponent(u: string, leftRest: string, l: string, rightRest: string)
    requires '/' !in u && '/' !in l
    requires leftRest != "" && leftRest[0] == '/'
    requires rightRest != "" ==> rightRest[0] == '/'
    requires "/" + u + leftRest <= "/" + l + rightRest
    ensures u == l
  {
    var left, right := "/" + u + leftRest, "/" + l + rightRest;
    assert left[1 + |u|] == '/';
    assert right[1 + |u|] == '/';
    assert forall i :: 0 <= i < |u| ==> left[1 + i] == u[i] && left[1 + i] == right[1 + i];
    assert forall i :: 0 <= i < |l| ==> right[1 + i] == l[i];
    assert rightRest != "" ==> right[1 + |l|] == '/';
    assert |u| == |l|;
  }

  lemma {:induction false} ExtendAppend(root: Path, a: seq<string>, b: seq<string>)
    ensures Extend(root, a + b) == Extend(Extend(root, a), b)
    decreases |b|
  {
    if b == [] {
      assert a + b == a;
    } else {
      assert (a + b)[..|a + b| - 1] == a + b[..|b| - 1];
      ExtendAppend(root, a, b[..|b| - 1]);
    }
  }

  /** Component lists are recovered from the paths they build. */
  lemma FlatInjective(a: seq<string>, b: seq<string>)
    requires ValidNames(a) && ValidNames(b)
    requires Flat(a) == Flat(b)
    ensures a == b
  {
    if a != [] && b != [] {
      var x, y := Flat(a[1..]) + "/", Flat(b[1..]) + "/";
      assert "/" + a[0] + x == Flat(a) + "/" && "/" + b[0] + y == Flat(b) + "/";
      assert x[0] == '/' && y[0] == '/';
      FirstComponent(a[0], x, b[0], y);
      assert Flat(a[1..]) == Flat(a)[1 + |a[0]|..] && Flat(b[1..]) == Flat(b)[1 + |a[0]|..];
      FlatInjective(a[1..], b[1..]);
    }
  }

  /** Past its trimmed part a path has only slashes, a joined path has a name. */
  lemma SlashNotName(t: string, name: string, rest: string, root: string)
    requires name != "" && name[0] != '/'
    requires |t| + 1 < |root| ==> root[|t| + 1] == '/'
    ensures !(t + ("/" + name + rest) + "/" <= root)
  {
    assert (t + ("/" + name + rest) + "/")[|t| + 1] == name[0];
  }

  /** The mount root itself is below none of its descendants. */
  lemma RootNotBelow(root: Path, names: seq<string>)
    requires ValidNames(names) && names != []
    ensures !(Extend(root, names) + "/" <= root)
  {
    ExtendFlat(root, names);
    assert ValidName(names[0]) && names[0][0] in names[0];
    SlashNotName(Trim(root), names[0], Flat(names[1..]), root);
  }

  /**
   The prefix test of the store's `rename` is exact on the paths of one mount: a key starts
   with `from/` if and only if it is reachable from `from` by one or more joins. A sibling
   that merely shares the text of `from` is not selected.
   */
  lemma DescendantsByPrefix(root: Path, from: Path, key: Path)
    requires Below(root, from) && Within(root, key)
    ensures from + "/" <= key <==> Below(from, key)
  {
    var up :| ValidNames(up) && up != [] && from == Extend(root, up);
    var down :| ValidNames(down) && key == Extend(root, down);
    if from + "/" <= key {
      PrefixIsBelow(root, up, down);
    }
    if Below(from, key) {
      var rest :| ValidNames(rest) && rest != [] && key == Extend(from, rest);
      BelowIsPrefix(root, up, rest);
    }
  }

  lemma PrefixIsBelow(root: Path, up: seq<string>, down: seq<string>)
    requires ValidNames(up) && up != [] && ValidNames(down)
    requires Extend(root, up) + "/" <= Extend(root, down)
    ensures Below(Extend(root, up), Extend(root, down))
  {
    hide Extend, Trim, Flat;
    RootNotBelow(root, up);
    assert down != [] by { ExtendNothing(root); }
    PrefixIsProper(root, up, down);
    var rest := down[|up|..];
    assert down == up + rest;
    ExtendAppend(root, up, rest);
    assert ValidNames(rest) && rest != [];
  }

  lemma ExtendNothing(root: Path)
    ensures Extend(root, []) == root
  {
  }

  lemma PrefixIsProper(root: Path, up: seq<string>, down: seq<string>)
    requires ValidNames(up) && up != [] && ValidNames(down) && down != []
    requires Extend(root, up) + "/" <= Extend(root, down)
    ensures up < down
  {
    hide Extend, Trim, Flat;
    ExtendFlat(root, up);
    ExtendFlat(root, down);
    StripPrefix(Trim(root), Flat(up), Flat(down));
    FlatPrefix(up, down);
  }

  lemma StripPrefix(t: string, x: string, y: string)
    requires t + x + "/" <= t + y
    ensures x + "/" <= y
  {
    assert x + "/" == (t + x + "/")[|t|..];
    assert y == (t + y)[|t|..];
  }

  lemma BelowIsPrefix(root: Path, up: seq<string>, rest: seq<string>)
    requires ValidNames(up) && up != [] && ValidNames(rest) && rest != []
    ensures Extend(root, up) + "/" <= Extend(Extend(root, up), rest)
  {
    var from := Extend(root, up);
    ChildTrim(Extend(root, up[..|up| - 1]), up[|up| - 1]);
    ExtendFlat(from, rest);
    assert Flat(rest)[0] == '/';
  }

  // ---- Parents ---------------------------------------------------------------

  lemma BelowTrim(root: Path, path: Path)
    requires Below(root, path)
    ensures Trim(path) == path
  {
    var names :| ValidNames(names) && names != [] && path == Extend(root, names);
    ExtendFlat(root, names);
  }

  /** Paths of one mount do not differ in trailing slashes alone. */
  lemma TrimWithin(root: Path, a: Path, b: Path)
    requires Within(root, a) && Within(root, b) && Trim(a) == Trim(b)
    ensures a == b
  {
    var x :| ValidNames(x) && a == Extend(root, x);
    var y :| ValidNames(y) && b == Extend(root, y);
    hide Extend;
    ExtendFlat(root, x);
    ExtendFlat(root, y);
    assert Flat(x) == (Trim(root) + Flat(x))[|Trim(root)|..];
    assert Flat(y) == (Trim(root) + Flat(y))[|Trim(root)|..];
    FlatInjective(x, y);
  }

  /** A path of the mount has one parent and one name. */
  lemma OneParent(root: Path, a: Path, name: string, b: Path, name': string)
    requires Within(root, a) && Within(root, b) && ValidName(name) && ValidName(name')
    requires Child(a, name) == Child(b, name')
    ensures a == b && name == name'
  {
    JoinInjective(a, name, b, name');
    TrimWithin(root, a, b);
  }

  /** What lies under `x` is `x` or has its parent at or under `x`. */
  lemma ParentUnder(root: Path, x: Path, dir: Path, name: string)
    requires Below(root, x) && Within(root, dir) && ValidName(name) && x + "/" <= Child(dir, name)
    ensures dir == x || x + "/" <= dir
  {
    var up :| ValidNames(up) && up != [] && x == Extend(root, up);
    var down :| ValidNames(down) && dir == Extend(root, down);
    var child := down + [name];
    assert child[..|child| - 1] == down;
    assert Child(dir, name) == Extend(root, child);
    hide Extend;
    PrefixIsProper(root, up, child);
    if up != down {
      var rest := down[|up|..];
      assert down == up + rest && ValidNames(rest);
      ExtendAppend(root, up, rest);
      BelowIsPrefix(root, up, rest);
    }
  }
}
