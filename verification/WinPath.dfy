/** Windows paths over a case-sensitive tree: canonical paths, and what resolving one means. */
module WinPath {
  import opened Base
  import opened Ascii

  /** What the resolver asks of the filesystem, whose tree does not change meanwhile. */
  datatype Tree = Tree(
    root: Result<FileMetadata>,
    lookup: (NodeId, string) -> Result<FileMetadata>,
    readdir: NodeId -> Result<seq<DirectoryEntry>>)

  predicate IsSeparator(c: char) { c == '\\' || c == '/' }

  // ---- Components ------------------------------------------------------------

  /** Length of the leading run without separators. */
  function NameEnd(s: string): (n: nat)
    ensures n <= |s|
    ensures forall i :: 0 <= i < n ==> !IsSeparator(s[i])
    ensures n < |s| ==> IsSeparator(s[n])
  {
    if s == "" || IsSeparator(s[0]) then 0 else 1 + NameEnd(s[1..])
  }

  predicate IsComponent(s: string) { s != "" && forall i :: 0 <= i < |s| ==> !IsSeparator(s[i]) }

  /** `components`: the non-empty pieces between separators. */
  function Components(path: string): (names: seq<string>)
    ensures forall i :: 0 <= i < |names| ==> IsComponent(names[i])
    decreases |path|
  {
    if path == "" then []
    else if IsSeparator(path[0]) then Components(path[1..])
    else [path[..NameEnd(path)]] + Components(path[NameEnd(path)..])
  }

  /** The canonical spelling of a path. */
  function Print(names: seq<string>): string {
    if names == [] then "" else Print(names[..|names| - 1]) + "\\" + names[|names| - 1]
  }

  function Canonical(names: seq<string>): string { if names == [] then "\\" else Print(names) }

  lemma {:induction false} NameEndAll(name: string, rest: string)
    requires IsComponent(name) && (rest == "" || IsSeparator(rest[0]))
    ensures NameEnd(name + rest) == |name|
    decreases |name|
  {
    if |name| == 1 {
      assert (name + rest)[1..] == rest;
    } else {
      assert (name + rest)[1..] == name[1..] + rest;
      NameEndAll(name[1..], rest);
    }
  }

  /** Reading one name off the front. */
  lemma ComponentsStep(name: string, rest: string)
    requires IsComponent(name) && (rest == "" || IsSeparator(rest[0]))
    ensures Components(name + rest) == [name] + Components(rest)
  {
    NameEndAll(name, rest);
    assert (name + rest)[..|name|] == name && (name + rest)[|name|..] == rest;
  }

  /** A separator cuts: the components on its two sides are independent. */
  lemma {:induction false} ComponentsCut(a: string, b: string)
    requires b != "" && IsSeparator(b[0])
    ensures Components(a + b) == Components(a) + Components(b[1..])
    decreases |a|
  {
    if a == "" {
      assert a + b == b;
    } else if IsSeparator(a[0]) {
      assert (a + b)[1..] == a[1..] + b;
      ComponentsCut(a[1..], b);
    } else {
      var n := NameEnd(a);
      var name, rest := a[..n], a[n..];
      ComponentsCut(rest, b);
      assert a == name + rest && a + b == name + (rest + b);
      hide Components;
      ComponentsStep(name, rest);
      ComponentsStep(name, rest + b);
    }
  }

  lemma ComponentsOfName(name: string)
    requires IsComponent(name)
    ensures Components(name) == [name]
  {
    NameEndAll(name, "");
    assert name + "" == name && name[..|name|] == name && name[|name|..] == "";
  }

  lemma NoComponents()
    ensures Components("") == [] && Components("\\") == []
  {
    assert "\\"[1..] == "";
  }

  lemma ComponentsOfLast(path: string, name: string)
    requires IsComponent(name)
    ensures Components(path + "\\" + name) == Components(path) + [name]
  {
    var last := "\\" + name;
    assert last[1..] == name && path + "\\" + name == path + last;
    hide Components;
    ComponentsCut(path, last);
    ComponentsOfName(name);
  }

  /** Splitting undoes printing. */
  lemma {:induction false} ComponentsOfPrint(names: seq<string>)
    requires forall i :: 0 <= i < |names| ==> IsComponent(names[i])
    ensures Components(Print(names)) == names && Components(Canonical(names)) == names
    decreases |names|
  {
    hide Components, IsComponent;
    NoComponents();
    if names != [] {
      var n := |names| - 1;
      ComponentsOfPrint(names[..n]);
      ComponentsOfLast(Print(names[..n]), names[n]);
      assert names[..n] + [names[n]] == names;
    }
  }

  /** The same text but for which separators it is written with. */
  predicate Alike(a: string, b: string) {
    && |a| == |b|
    && forall i :: 0 <= i < |a| ==> a[i] == b[i] || ((a[i] == '/' || a[i] == '\\') && (b[i] == '/' || b[i] == '\\'))
  }

  lemma {:induction false} NameEndAlike(a: string, b: string)
    requires Alike(a, b)
    ensures NameEnd(a) == NameEnd(b)
    decreases |a|
  {
    if a != "" && !IsSeparator(a[0]) { NameEndAlike(a[1..], b[1..]); }
  }

  /** Which separators a path is written with does not matter. */
  lemma {:induction false} SeparatorsAlike(a: string, b: string)
    requires Alike(a, b)
    ensures Components(a) == Components(b)
    decreases |a|
  {
    if a == "" {
    } else if IsSeparator(a[0]) {
      SeparatorsAlike(a[1..], b[1..]);
    } else {
      var n := NameEnd(a);
      NameEndAlike(a, b);
      assert a[..n] == b[..n] by { assert forall i :: 0 <= i < n ==> !IsSeparator(a[i]) && a[i] == b[i]; }
      SeparatorsAlike(a[n..], b[n..]);
    }
  }

  /** The canonical spelling begins with a backslash and has no other separator. */
  lemma {:induction false} CanonicalBackslashes(names: seq<string>)
    requires forall i :: 0 <= i < |names| ==> IsComponent(names[i])
    ensures '/' !in Print(names) && (names != [] ==> Print(names)[0] == '\\')
    ensures '/' !in Canonical(names) && Canonical(names)[0] == '\\'
    decreases |names|
  {
    if names != [] {
      var n := |names| - 1;
      CanonicalBackslashes(names[..n]);
      var name := names[n];
      assert '/' !in name by { assert forall i :: 0 <= i < |name| ==> !IsSeparator(name[i]); }
    }
  }

  // ---- One component ---------------------------------------------------------

  /** `eq_ignore_ascii_case` */
  predicate SameIgnoringCase(a: string, b: string) {
    |a| == |b| && forall i :: 0 <= i < |a| ==> Lower(a[i]) == Lower(b[i])
  }

  /** Two names are the same but for case if they are so letter by letter, A-Z against a-z and nothing else. */
  lemma SameIgnoringCaseExact(a: string, b: string)
    ensures SameIgnoringCase(a, b) <==> |a| == |b| && forall i :: 0 <= i < |a| ==> AlikeButForCase(a[i], b[i])
  {
    if |a| == |b| { forall i | 0 <= i < |a| { LowerExact(a[i], b[i]); } }
  }

  /** The first entry from `i` on whose name is `name` but for case. */
  function Scan(entries: seq<DirectoryEntry>, name: string, i: nat): Result<(FileMetadata, string)>
    requires i <= |entries|
    decreases |entries| - i
  {
    if i == |entries| then Err(NotFound)
    else if SameIgnoringCase(entries[i].name, name) then Ok((entries[i].metadata, entries[i].name))
    else Scan(entries, name, i + 1)
  }

  /** `lookup_component`: metadata and real name. */
  function LookupComponent(t: Tree, parent: NodeId, name: string): Result<(FileMetadata, string)> {
    match t.lookup(parent, name)
    case Ok(metadata) => Ok((metadata, name))
    case Err(error) =>
      if error != NotFound then Err(error)
      else
        var entries := t.readdir(parent);
        if entries.Err? then Err(entries.error) else Scan(entries.value, name, 0)
  }

  method FindComponent(t: Tree, parent: NodeId, name: string) returns (r: Result<(FileMetadata, string)>)
    ensures r == LookupComponent(t, parent, name)
  {
    var exact := t.lookup(parent, name);
    if exact.Ok? {
      return Ok((exact.value, name));
    }
    if exact.error != NotFound {
      return Err(exact.error);
    }
    var entries := t.readdir(parent);
    if entries.Err? {
      return Err(entries.error);
    }
    for i := 0 to |entries.value|
      invariant Scan(entries.value, name, 0) == Scan(entries.value, name, i)
    {
      if SameIgnoringCase(entries.value[i].name, name) {
        return Ok((entries.value[i].metadata, entries.value[i].name));
      }
    }
    return Err(NotFound);
  }

  /** Entry `k` has the name but for case, and from `i` on none before it has. */
  ghost predicate FirstSame(entries: seq<DirectoryEntry>, name: string, i: nat, k: nat) {
    && i <= k < |entries| && SameIgnoringCase(entries[k].name, name)
    && forall j :: i <= j < k ==> !SameIgnoringCase(entries[j].name, name)
  }

  lemma {:induction false} ScanFirst(entries: seq<DirectoryEntry>, name: string, i: nat, k: nat)
    requires FirstSame(entries, name, i, k)
    ensures Scan(entries, name, i) == Ok((entries[k].metadata, entries[k].name))
    decreases k - i
  {
    if i < k { ScanFirst(entries, name, i + 1, k); }
  }

  /**
   A component is looked up by its exact name; only if that is not found the directory is listed, and then the first
   entry that has the name but for case is taken, under the name it has there.
   */
  lemma ComponentExact(t: Tree, parent: NodeId, name: string)
    ensures var exact, listed, r := t.lookup(parent, name), t.readdir(parent), LookupComponent(t, parent, name);
      && (exact.Ok? ==> r == Ok((exact.value, name)))
      && (exact.Err? && exact.error != NotFound ==> r == Err(exact.error))
      && (exact == Err(NotFound) && listed.Err? ==> r == Err(listed.error))
      && (exact == Err(NotFound) && listed.Ok? ==>
            && ((forall k :: 0 <= k < |listed.value| ==> !SameIgnoringCase(listed.value[k].name, name)) ==>
                  r == Err(NotFound))
            && forall k: nat :: FirstSame(listed.value, name, 0, k) ==>
                 r == Ok((listed.value[k].metadata, listed.value[k].name)))
  {
    if t.lookup(parent, name) == Err(NotFound) && t.readdir(parent).Ok? {
      var entries := t.readdir(parent).value;
      ScanFinds(entries, name, 0);
      forall k: nat | FirstSame(entries, name, 0, k) { ScanFirst(entries, name, 0, k); }
    }
  }

  // ---- Whole paths -----------------------------------------------------------

  /** The walk from the root over `names`: where it ends, and the real names on the way. */
  function Walk(t: Tree, names: seq<string>): Result<(FileMetadata, seq<string>)> {
    if names == [] then
      if t.root.Err? then Err(t.root.error) else Ok((t.root.value, []))
    else
      var front := Walk(t, names[..|names| - 1]);
      if front.Err? then front
      else
        var found := LookupComponent(t, if |names| == 1 then ROOT else front.value.0.node, names[|names| - 1]);
        if found.Err? then Err(found.error) else Ok((found.value.0, front.value.1 + [found.value.1]))
  }

  /** From the root on, each name but for case was looked up in the node the one before led to. */
  ghost predicate Trail(t: Tree, names: seq<string>, metas: seq<FileMetadata>, found: seq<string>) {
    && |metas| == |found| + 1 && |found| <= |names| && t.root == Ok(metas[0])
    && forall i :: 0 <= i < |found| ==>
         LookupComponent(t, if i == 0 then ROOT else metas[i].node, names[i]) == Ok((metas[i + 1], found[i]))
  }

  /** The walk follows such a trail, to its end or to the first name that cannot be looked up, whose error it gives. */
  lemma {:induction false} WalkFollows(t: Tree, names: seq<string>)
    returns (metas: seq<FileMetadata>, found: seq<string>)
    requires t.root.Ok?
    ensures Trail(t, names, metas, found)
    ensures Walk(t, names).Ok? ==> |found| == |names| && Walk(t, names) == Ok((metas[|names|], found))
    ensures Walk(t, names).Err? ==>
      && |found| < |names|
      && LookupComponent(t, if found == [] then ROOT else metas[|found|].node, names[|found|])
           == Err(Walk(t, names).error)
    decreases |names|
  {
    hide LookupComponent;
    if names == [] {
      metas, found := [t.root.value], [];
    } else {
      var n := |names| - 1;
      metas, found := WalkFollows(t, names[..n]);
      assert forall i :: 0 <= i < n ==> names[..n][i] == names[i];
      if Walk(t, names).Ok? {
        var (metadata, spelled) := Walk(t, names).value;
        metas, found := metas + [metadata], found + [spelled[n]];
      }
    }
  }

  /** Once the walk fails, further names do not matter. */
  lemma {:induction false} WalkStuck(t: Tree, names: seq<string>, i: nat)
    requires i <= |names| && Walk(t, names[..i]).Err?
    ensures Walk(t, names) == Walk(t, names[..i])
    decreases |names|
  {
    if i < |names| {
      assert names[..|names| - 1][..i] == names[..i];
      WalkStuck(t, names[..|names| - 1], i);
    } else {
      assert names[..i] == names;
    }
  }

  /** What `resolve` returns: where the walk over the components ends, and the canonical path. */
  function Resolution(t: Tree, path: string): Result<(FileMetadata, string)> {
    var walked := Walk(t, Components(path));
    if walked.Err? then Err(walked.error) else Ok((walked.value.0, Canonical(walked.value.1)))
  }

  method Resolve(t: Tree, path: string) returns (r: Result<(FileMetadata, string)>)
    ensures r == Resolution(t, path)
  {
    hide LookupComponent;
    var names := Components(path);
    if t.root.Err? {
      WalkStuck(t, names, 0);
      return Err(t.root.error);
    }
    var node, metadata, canonical := ROOT, t.root.value, "";
    ghost var spelled: seq<string> := [];
    for i := 0 to |names|
      invariant Walk(t, names[..i]) == Ok((metadata, spelled)) && canonical == Print(spelled) && |spelled| == i
      invariant node == if i == 0 then ROOT else metadata.node
    {
      assert names[..i + 1][..i] == names[..i];
      var found := FindComponent(t, node, names[i]);
      if found.Err? {
        WalkStuck(t, names, i + 1);
        return Err(found.error);
      }
      metadata := found.value.0;
      node := metadata.node;
      canonical := canonical + "\\";
      canonical := canonical + found.value.1;
      spelled := spelled + [found.value.1];
      assert spelled[..i] + [found.value.1] == spelled;
    }
    assert names[..|names|] == names;
    if canonical == "" {
      canonical := "\\";
    }
    return Ok((metadata, canonical));
  }

  /** The node at the end of a walk that never asks for the root's attributes. */
  function WalkNode(t: Tree, names: seq<string>): Result<NodeId> {
    if names == [] then Ok(ROOT)
    else
      var front := WalkNode(t, names[..|names| - 1]);
      if front.Err? then front
      else
        var found := LookupComponent(t, front.value, names[|names| - 1]);
        if found.Err? then Err(found.error) else Ok(found.value.0.node)
  }

  lemma {:induction false} WalkNodeStuck(t: Tree, names: seq<string>, i: nat)
    requires i <= |names| && WalkNode(t, names[..i]).Err?
    ensures WalkNode(t, names) == WalkNode(t, names[..i])
    decreases |names|
  {
    if i < |names| {
      assert names[..|names| - 1][..i] == names[..i];
      WalkNodeStuck(t, names[..|names| - 1], i);
    } else {
      assert names[..i] == names;
    }
  }

  /** What `resolve_parent` returns. */
  function ParentResolution(t: Tree, path: string): Result<(NodeId, string)> {
    var names := Components(path);
    if names == [] then Err(InvalidInput)
    else
      var parent := WalkNode(t, names[..|names| - 1]);
      if parent.Err? then Err(parent.error) else Ok((parent.value, names[|names| - 1]))
  }

  method ResolveParent(t: Tree, path: string) returns (r: Result<(NodeId, string)>)
    ensures r == ParentResolution(t, path)
  {
    hide LookupComponent;
    var names := Components(path);
    if names == [] {
      return Err(InvalidInput);
    }
    var parents, leaf := names[..|names| - 1], names[|names| - 1];
    var node := ROOT;
    for i := 0 to |parents|
      invariant WalkNode(t, parents[..i]) == Ok(node)
    {
      assert parents[..i + 1][..i] == parents[..i];
      var found := FindComponent(t, node, parents[i]);
      if found.Err? {
        WalkNodeStuck(t, parents, i + 1);
        return Err(found.error);
      }
      node := found.value.0.node;
    }
    assert parents[..|parents|] == parents;
    return Ok((node, leaf));
  }

  /** The root is asked first, and it has no parent. */
  lemma RootAnswers(t: Tree, path: string)
    ensures t.root.Err? ==> Resolution(t, path) == Err(t.root.error)
    ensures (forall i :: 0 <= i < |path| ==> path[i] == '\\' || path[i] == '/') ==>
      ParentResolution(t, path) == Err(InvalidInput) && (t.root.Ok? ==> Resolution(t, path) == Ok((t.root.value, "\\")))
  {
    if t.root.Err? { WalkStuck(t, Components(path), 0); }
    if forall i :: 0 <= i < |path| ==> path[i] == '\\' || path[i] == '/' { OnlySeparators(path); }
  }

  lemma {:induction false} OnlySeparators(path: string)
    requires forall i :: 0 <= i < |path| ==> IsSeparator(path[i])
    ensures Components(path) == []
    decreases |path|
  {
    if path != "" { OnlySeparators(path[1..]); }
  }

  // ---- Canonical paths are a fixpoint ----------------------------------------

  /** What a directory lists can be looked up by that name, and names have no separators. */
  ghost predicate Consistent(t: Tree) {
    forall parent :: t.readdir(parent).Ok? ==> forall i :: 0 <= i < |t.readdir(parent).value| ==>
      var e := t.readdir(parent).value[i]; IsComponent(e.name) && t.lookup(parent, e.name) == Ok(e.metadata)
  }

  lemma {:induction false} ScanFinds(entries: seq<DirectoryEntry>, name: string, i: nat)
    requires i <= |entries|
    ensures var r := Scan(entries, name, i);
      && (r.Ok? ==>
            exists k :: i <= k < |entries| && SameIgnoringCase(entries[k].name, name)
              && r.value == (entries[k].metadata, entries[k].name))
      && (r.Err? ==> r.error == NotFound && forall k :: i <= k < |entries| ==> !SameIgnoringCase(entries[k].name, name))
    decreases |entries| - i
  {
    if i < |entries| { ScanFinds(entries, name, i + 1); }
  }

  /** The real name is the given one but for case, and looking it up again gives the same. */
  lemma ComponentFixpoint(t: Tree, parent: NodeId, name: string)
    requires Consistent(t) && IsComponent(name) && LookupComponent(t, parent, name).Ok?
    ensures var (metadata, found) := LookupComponent(t, parent, name).value;
      && SameIgnoringCase(found, name) && IsComponent(found)
      && LookupComponent(t, parent, found) == Ok((metadata, found))
  {
    if t.lookup(parent, name).Err? {
      var entries := t.readdir(parent).value;
      ScanFinds(entries, name, 0);
      var k :| 0 <= k < |entries| && SameIgnoringCase(entries[k].name, name)
        && LookupComponent(t, parent, name).value == (entries[k].metadata, entries[k].name);
      assert t.lookup(parent, entries[k].name) == Ok(entries[k].metadata);
    }
  }

  ghost predicate SameNames(a: seq<string>, b: seq<string>) {
    |a| == |b| && forall i :: 0 <= i < |a| ==> SameIgnoringCase(a[i], b[i])
  }

  lemma {:induction false} WalkFixpoint(t: Tree, names: seq<string>)
    requires Consistent(t) && (forall i :: 0 <= i < |names| ==> IsComponent(names[i])) && Walk(t, names).Ok?
    ensures var (metadata, found) := Walk(t, names).value;
      && SameNames(found, names) && (forall i :: 0 <= i < |found| ==> IsComponent(found[i]))
      && Walk(t, found) == Ok((metadata, found))
    decreases |names|
  {
    if names != [] {
      hide Consistent, LookupComponent, IsComponent, SameIgnoringCase;
      var n := |names| - 1;
      WalkFixpoint(t, names[..n]);
      var (front, before) := Walk(t, names[..n]).value;
      var parent := if n == 0 then ROOT else front.node;
      ComponentFixpoint(t, parent, names[n]);
      var found := Walk(t, names).value.1;
      assert found[..n] == before;
    }
  }

  /**
   Resolving a canonical path gives the same metadata and the same canonical path; its components are those of the
   given path but for ASCII case.
   */
  lemma CanonicalIsFixpoint(t: Tree, path: string)
    requires Consistent(t) && Resolution(t, path).Ok?
    ensures var (metadata, canonical) := Resolution(t, path).value;
      && Resolution(t, canonical) == Ok((metadata, canonical))
      && SameNames(Components(canonical), Components(path))
  {
    hide Consistent, Walk, Canonical, Components;
    WalkFixpoint(t, Components(path));
    ComponentsOfPrint(Walk(t, Components(path)).value.1);
  }

  /** The two walks agree on nodes. */
  lemma {:induction false} WalksAgree(t: Tree, names: seq<string>)
    requires t.root.Ok?
    ensures Walk(t, names).Err? == WalkNode(t, names).Err?
    ensures Walk(t, names).Err? ==> Walk(t, names).error == WalkNode(t, names).error
    ensures Walk(t, names).Ok? && names != [] ==> WalkNode(t, names) == Ok(Walk(t, names).value.0.node)
    decreases |names|
  {
    if names != [] {
      hide LookupComponent;
      WalksAgree(t, names[..|names| - 1]);
    }
  }

  /**
   Resolving the parent and then looking up the leaf agrees with resolving the whole path, in success and in failure.
   */
  lemma ParentAgrees(t: Tree, path: string)
    requires t.root.Ok? && Components(path) != []
    ensures var parent, whole := ParentResolution(t, path), Resolution(t, path);
      if parent.Err? then whole == Err(parent.error)
      else
        var found := LookupComponent(t, parent.value.0, parent.value.1);
        if found.Err? then whole == Err(found.error)
        else
          var before := Walk(t, Components(path)[..|Components(path)| - 1]);
          before.Ok? && whole == Ok((found.value.0, Print(before.value.1) + "\\" + found.value.1))
  {
    hide LookupComponent, Components;
    var names := Components(path);
    var n := |names| - 1;
    WalksAgree(t, names[..n]);
    WalkStuckOrNot(t, names);
    if Walk(t, names).Ok? {
      var spelled := Walk(t, names).value.1;
      var before := Walk(t, names[..n]).value.1;
      assert spelled[..|spelled| - 1] == before;
      assert Canonical(spelled) == Print(before) + "\\" + spelled[|spelled| - 1];
    }
  }

  lemma WalkStuckOrNot(t: Tree, names: seq<string>)
    requires names != []
    ensures Walk(t, names[..|names| - 1]).Err? ==> Walk(t, names) == Walk(t, names[..|names| - 1])
  {
  }

  // ---- Case blindness --------------------------------------------------------

  /** Lookup finds exactly what is listed. */
  ghost predicate Faithful(t: Tree, parent: NodeId) {
    && t.readdir(parent).Ok?
    && var entries := t.readdir(parent).value;
      && (forall i :: 0 <= i < |entries| ==> t.lookup(parent, entries[i].name) == Ok(entries[i].metadata))
      && (forall name ::
            t.lookup(parent, name) == Err(NotFound) || exists i :: 0 <= i < |entries| && entries[i].name == name)
  }

  ghost predicate CaseUnique(entries: seq<DirectoryEntry>) {
    forall i, j :: 0 <= i < |entries| && 0 <= j < |entries| && SameIgnoringCase(entries[i].name, entries[j].name) ==>
      entries[i].name == entries[j].name
  }

  ghost predicate CaseBlind(t: Tree, parent: NodeId) {
    forall a, b :: SameIgnoringCase(a, b) ==> LookupComponent(t, parent, a) == LookupComponent(t, parent, b)
  }

  /** In a faithful directory a component is found if and only if an entry has that name but for case. */
  lemma ComponentIsEntry(t: Tree, parent: NodeId, name: string)
    requires Faithful(t, parent)
    ensures var entries, r := t.readdir(parent).value, LookupComponent(t, parent, name);
      && (r.Ok? ==>
            exists k :: 0 <= k < |entries| && SameIgnoringCase(entries[k].name, name)
              && r.value == (entries[k].metadata, entries[k].name))
      && (r.Err? ==> r.error == NotFound && forall k :: 0 <= k < |entries| ==> !SameIgnoringCase(entries[k].name, name))
  {
    var entries := t.readdir(parent).value;
    if t.lookup(parent, name).Err? {
      ScanFinds(entries, name, 0);
    } else {
      var k :| 0 <= k < |entries| && entries[k].name == name;
      assert t.lookup(parent, entries[k].name) == Ok(entries[k].metadata);
      assert SameIgnoringCase(entries[k].name, name);
    }
  }

  lemma BlindIfUnique(t: Tree, parent: NodeId, a: string, b: string)
    requires Faithful(t, parent) && CaseUnique(t.readdir(parent).value) && SameIgnoringCase(a, b)
    ensures LookupComponent(t, parent, a) == LookupComponent(t, parent, b)
  {
    ComponentIsEntry(t, parent, a);
    ComponentIsEntry(t, parent, b);
    var entries := t.readdir(parent).value;
    assert forall k :: 0 <= k < |entries| ==>
      (SameIgnoringCase(entries[k].name, a) <==> SameIgnoringCase(entries[k].name, b));
    hide LookupComponent;
    if LookupComponent(t, parent, a).Ok? && LookupComponent(t, parent, b).Ok? {
      var i :| 0 <= i < |entries| && SameIgnoringCase(entries[i].name, a)
        && LookupComponent(t, parent, a).value == (entries[i].metadata, entries[i].name);
      var j :| 0 <= j < |entries| && SameIgnoringCase(entries[j].name, b)
        && LookupComponent(t, parent, b).value == (entries[j].metadata, entries[j].name);
      SameBut(entries[i].name, a, b, entries[j].name);
      assert entries[i].name == entries[j].name;
    }
  }

  lemma SameBut(c: string, a: string, b: string, d: string)
    requires SameIgnoringCase(c, a) && SameIgnoringCase(a, b) && SameIgnoringCase(d, b)
    ensures SameIgnoringCase(c, d)
  {
  }

  /**
   A directory resolves names without regard to case if and only if no two of its names differ in case alone; where two
   do, the exact spelling wins.
   */
  lemma CaseBlindExactly(t: Tree, parent: NodeId)
    requires Faithful(t, parent)
    ensures CaseBlind(t, parent) <==> CaseUnique(t.readdir(parent).value)
  {
    var entries := t.readdir(parent).value;
    if CaseUnique(entries) {
      forall a, b | SameIgnoringCase(a, b)
        ensures LookupComponent(t, parent, a) == LookupComponent(t, parent, b)
      {
        BlindIfUnique(t, parent, a, b);
      }
    }
    forall i | 0 <= i < |entries|
      ensures LookupComponent(t, parent, entries[i].name) == Ok((entries[i].metadata, entries[i].name))
    {
    }
  }

  /** Over a tree of such directories, paths that differ in case alone resolve alike. */
  lemma {:induction false} WalkCaseBlind(t: Tree, a: seq<string>, b: seq<string>)
    requires (forall parent :: CaseBlind(t, parent)) && SameNames(a, b)
    ensures Walk(t, a) == Walk(t, b)
    decreases |a|
  {
    if a != [] {
      hide LookupComponent, SameIgnoringCase;
      var n := |a| - 1;
      WalkCaseBlind(t, a[..n], b[..n]);
      var front := Walk(t, a[..n]);
      if front.Ok? { assert CaseBlind(t, if n == 0 then ROOT else front.value.0.node); }
    }
  }
}
