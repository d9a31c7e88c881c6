/** The node table and confinement, over every run. */
module VfsNodes {
  import opened Base
  import opened RemotePaths
  import CM = CacheModel
  import CacheReads
  import opened VfsModel

  // ---- The node table --------------------------------------------------------

  /**
   A path's node points back at the path, node ids come from the counter, and the root node is the mount root.
   Everything the tables hold lies within the root.
   */
  ghost predicate NodeTable(s: Session, root: Path) {
    && (forall p :: p in s.pathToNode ==> s.pathToNode[p] in s.nodeToPath && s.nodeToPath[s.pathToNode[p]] == p)
    && (forall n :: n in s.nodeToPath ==> n < s.nextNode && Within(root, s.nodeToPath[n]))
    && (forall h :: h in s.handles ==> Within(root, s.handles[h].path))
    && root in s.pathToNode && s.pathToNode[root] == ROOT
  }

  /** Issued nodes keep a path, and new nodes get ids that were never used. */
  ghost predicate NodesGrow(s: Session, s': Session) {
    && s.nextNode <= s'.nextNode
    && s.nodeToPath.Keys <= s'.nodeToPath.Keys
    && (forall n :: n in s'.nodeToPath && n !in s.nodeToPath ==> n >= s.nextNode)
  }

  /** No node changes its path. */
  ghost predicate NodesExtend(s: Session, s': Session) {
    && NodesGrow(s, s')
    && (forall n :: n in s.nodeToPath ==> n in s'.nodeToPath && s'.nodeToPath[n] == s.nodeToPath[n])
    && (forall p :: p in s.pathToNode ==> p in s'.pathToNode && s'.pathToNode[p] == s.pathToNode[p])
  }

  lemma InternNodes(s: Session, root: Path, p: Path)
    requires NodeTable(s, root) && Within(root, p)
    ensures var (s', node) := Intern(s, p);
      && NodeTable(s', root) && NodesExtend(s, s')
      && p in s'.pathToNode && s'.pathToNode[p] == node && s'.nodeToPath[node] == p
      && s'.handles == s.handles && s'.validated == s.validated && s'.negative == s.negative
  {
  }

  lemma ExtendTransitive(s: Session, s1: Session, s2: Session)
    requires NodesExtend(s, s1) && NodesExtend(s1, s2)
    ensures NodesExtend(s, s2)
  {
  }

  lemma JoinWithin(root: Path, base: Path, name: string)
    requires Within(root, base) && Join(base, name).Ok?
    ensures ValidName(name) && Join(base, name).value == Child(base, name)
    ensures Below(root, Child(base, name)) && Within(root, Child(base, name))
  {
    WithinChild(root, base, name);
  }

  /** Paths the VFS derives from a node and a name never leave the root. */
  lemma ChildConfined(s: Session, root: Path, parent: NodeId, name: string)
    requires NodeTable(s, root) && ChildOf(s, parent, name).Ok?
    ensures parent in s.nodeToPath && Below(root, ChildOf(s, parent, name).value)
    ensures Within(root, ChildOf(s, parent, name).value)
    ensures ValidName(name) && ChildOf(s, parent, name).value == Child(s.nodeToPath[parent], name)
  {
    JoinWithin(root, s.nodeToPath[parent], name);
  }

  /** A child of the root subtree is never the root. */
  lemma ChildNotRoot(s: Session, root: Path, parent: NodeId, name: string)
    requires NodeTable(s, root) && ChildOf(s, parent, name).Ok?
    ensures ChildOf(s, parent, name).value != root
  {
    ChildConfined(s, root, parent, name);
    BelowNotRoot(root, ChildOf(s, parent, name).value);
  }

  lemma RenameNodes(s: Session, root: Path, from: Path, to: Path)
    requires NodeTable(s, root) && Within(root, to) && from != root && to != root
    ensures var s' := RenamePath(s, from, to);
      && NodeTable(s', root) && NodesGrow(s, s')
      && (from in s.pathToNode ==> to in s'.pathToNode && s'.pathToNode[to] == s.pathToNode[from]
                                   && s'.nodeToPath[s.pathToNode[from]] == to)
      && (forall n :: n in s.nodeToPath && (from !in s.pathToNode || n != s.pathToNode[from]) ==>
        s'.nodeToPath[n] == s.nodeToPath[n])
  {
  }

  /** Each issued node is the one its path maps to. */
  ghost predicate Bijective(s: Session) {
    forall n :: n in s.nodeToPath ==> s.nodeToPath[n] in s.pathToNode && s.pathToNode[s.nodeToPath[n]] == n
  }

  /**
   A rename keeps the table a bijection if and only if it does not move a known node onto another known node's
   path; then the displaced node is left pointing at the path of the one that replaced it.
   */
  lemma RenameBijective(s: Session, root: Path, from: Path, to: Path)
    requires NodeTable(s, root) && Bijective(s)
    ensures Bijective(RenamePath(s, from, to)) <==> from !in s.pathToNode || to !in s.pathToNode || from == to
  {
    var s' := RenamePath(s, from, to);
    if from in s.pathToNode && to in s.pathToNode && from != to {
      var displaced := s.pathToNode[to];
      assert displaced in s'.nodeToPath && s'.nodeToPath[displaced] == to && s'.pathToNode[to] != displaced;
    }
  }

  lemma {:induction false} InternAllNodes(s: Session, root: Path, dir: Path, children: Listing)
    requires NodeTable(s, root) && Within(root, dir)
    requires forall i :: 0 <= i < |children| ==> ValidName(children[i].0)
    ensures var s' := InternAll(s, dir, children).0;
      && NodeTable(s', root) && NodesExtend(s, s')
      && s'.handles == s.handles && s'.validated == s.validated && s'.negative == s.negative
    decreases |children|
  {
    if children != [] {
      var front := children[..|children| - 1];
      InternAllNodes(s, root, dir, front);
      var s1 := InternAll(s, dir, front).0;
      var name := children[|children| - 1].0;
      WithinChild(root, dir, name);
      InternNodes(s1, root, Child(dir, name));
      ExtendTransitive(s, s1, Intern(s1, Child(dir, name)).0);
    }
  }

  lemma {:induction false} CachedChildrenValid(cache: CM.Cache, dir: Path, names: seq<string>)
    ensures CachedChildren(cache, dir, names).Some? ==>
      forall i :: 0 <= i < |CachedChildren(cache, dir, names).value| ==>
        ValidName(CachedChildren(cache, dir, names).value[i].0)
    decreases |names|
  {
    if names != [] { CachedChildrenValid(cache, dir, names[..|names| - 1]); }
  }

  lemma {:induction false} StampAllNodes(s: Session, root: Path, dir: Path, children: Listing, now: Time)
    requires NodeTable(s, root) && Within(root, dir)
    ensures var s' := StampAll(s, dir, children, now).0;
      && NodeTable(s', root) && NodesExtend(s, s') && s'.handles == s.handles && s'.negative == s.negative
    decreases |children|
  {
    if children != [] {
      var front := children[..|children| - 1];
      StampAllNodes(s, root, dir, front, now);
      var (s1, entries) := StampAll(s, dir, front, now);
      var child := Join(dir, children[|children| - 1].0);
      if entries.Ok? && child.Ok? {
        JoinWithin(root, dir, children[|children| - 1].0);
        var s2 := s1.(validated := s1.validated[child.value := now]);
        InternNodes(s2, root, child.value);
        ExtendTransitive(s, s1, Intern(s2, child.value).0);
      }
    }
  }

  // ---- Every operation -------------------------------------------------------

  ghost predicate SessionOk(w: World) { NodeTable(w.session, w.config.root) }

  /** The session after the operation, against the one before it. */
  ghost predicate SessionStep(w: World, w': World) {
    && w'.config.root == w.config.root && SessionOk(w') && NodesGrow(w.session, w'.session)
  }

  /** The node tables do not notice stamps, negative entries, or handles on paths within the root. */
  lemma SameNodes(s: Session, s': Session, root: Path)
    requires NodeTable(s, root)
    requires s'.nextNode == s.nextNode && s'.pathToNode == s.pathToNode && s'.nodeToPath == s.nodeToPath
    requires forall h :: h in s'.handles ==>
      (h in s.handles && s'.handles[h] == s.handles[h]) || Within(root, s'.handles[h].path)
    ensures NodeTable(s', root) && NodesExtend(s, s')
  {
  }

  /** Interning after changing only stamps and negative entries. */
  lemma TouchAndIntern(s: Session, s1: Session, root: Path, p: Path)
    requires NodeTable(s, root) && Within(root, p)
    requires s1.nextNode == s.nextNode && s1.pathToNode == s.pathToNode && s1.nodeToPath == s.nodeToPath
    requires s1.handles == s.handles
    ensures NodeTable(Intern(s1, p).0, root) && NodesExtend(s, Intern(s1, p).0)
    ensures Intern(s1, p).1 in Intern(s1, p).0.nodeToPath && Intern(s1, p).0.handles == s.handles
  {
    SameNodes(s, s1, root);
    InternNodes(s1, root, p);
    hide NodeTable, Intern, Within;
    ExtendTransitive(s, s1, Intern(s1, p).0);
  }

  lemma LookupNodes(w: World, op: Op, now: Time)
    requires SessionOk(w) && op.OpLookup?
    ensures SessionStep(w, Next(w, op, now)) && NodesExtend(w.session, Next(w, op, now).session)
  {
    hide NodeTable, Intern, Within, Join, NodesExtend, CM.Cache.PutAttrs, CM.Cache.Remove;
    var root := w.config.root;
    SameNodes(w.session, w.session, root);
    var child := ChildOf(w.session, op.parent, op.name);
    if child.Ok? {
      ChildConfined(w.session, root, op.parent, op.name);
      var key := (op.parent, op.name);
      var stamped :=
        w.session.(validated := w.session.validated[child.value := now], negative := w.session.negative - {key});
      TouchAndIntern(w.session, w.session, root, child.value);
      TouchAndIntern(w.session, stamped, root, child.value);
      var missing := w.session.(negative := w.session.negative[key := now]);
      SameNodes(w.session, missing, root);
      SessionStepFrom(w, Next(w, op, now));
    } else {
      SessionStepFrom(w, Next(w, op, now));
    }
  }

  lemma SessionStepFrom(w: World, w': World)
    requires w'.config == w.config && NodeTable(w'.session, w.config.root) && NodesExtend(w.session, w'.session)
    ensures SessionStep(w, w')
  {
  }

  lemma CachedListingNodes(w: World, dir: Path)
    requires SessionOk(w) && Within(w.config.root, dir) && ReaddirFromCache(w, dir).Some?
    ensures var w' := ReaddirFromCache(w, dir).value.0;
      w'.config == w.config && NodeTable(w'.session, w.config.root) && NodesExtend(w.session, w'.session)
  {
    var names := w.cache.Children(dir).value;
    CachedChildrenValid(w.cache, dir, names);
    hide NodeTable, Within, InternAll, NodesExtend;
    InternAllNodes(w.session, w.config.root, dir, CachedChildren(w.cache, dir, names).value);
  }

  /** The sessions a listing can end in. */
  lemma ReaddirSessions(w: World, op: Op, now: Time)
    requires op.OpReaddir? && op.node in w.session.nodeToPath
    ensures var w', dir := Next(w, op, now), w.session.nodeToPath[op.node];
      var w1 := w.Logged(ReadDirEvent(dir, now, op.listing));
      && w'.config == w.config
      && (|| w'.session == w.session
          || (ReaddirFromCache(w, dir).Some? && w'.session == ReaddirFromCache(w, dir).value.0.session)
          || (ReaddirFromCache(w1, dir).Some? && w'.session == ReaddirFromCache(w1, dir).value.0.session)
          || (op.listing.Ok?
              && var s := StampAll(w.session, dir, RealChildren(op.listing.value), now).0;
                 w'.session == s || w'.session == s.(validated := s.validated[dir := now])))
  {
    var dir := w.session.nodeToPath[op.node];
    var w1 := w.Logged(ReadDirEvent(dir, now, op.listing));
    assert ReaddirFromCache(w, dir).Some? ==> ReaddirFromCache(w, dir).value.0.config == w.config;
    assert ReaddirFromCache(w1, dir).Some? ==> ReaddirFromCache(w1, dir).value.0.config == w.config;
    hide ReaddirFromCache, StampAll, RealChildren, CM.Cache.RecordListing;
  }

  lemma ReaddirNodes(w: World, op: Op, now: Time)
    requires SessionOk(w) && op.OpReaddir?
    ensures SessionStep(w, Next(w, op, now)) && NodesExtend(w.session, Next(w, op, now).session)
  {
    var root := w.config.root;
    SameNodes(w.session, w.session, root);
    if op.node in w.session.nodeToPath {
      ReaddirSessions(w, op, now);
      var dir := w.session.nodeToPath[op.node];
      assert Within(root, dir);
      hide Next, NodeTable, Within, NodesExtend, StampAll, RealChildren, ReaddirFromCache;
      var w1 := w.Logged(ReadDirEvent(dir, now, op.listing));
      if ReaddirFromCache(w, dir).Some? { CachedListingNodes(w, dir); }
      if ReaddirFromCache(w1, dir).Some? { CachedListingNodes(w1, dir); }
      if op.listing.Ok? {
        var children := RealChildren(op.listing.value);
        StampAllNodes(w.session, root, dir, children, now);
        var s := StampAll(w.session, dir, children, now).0;
        SameNodes(s, s.(validated := s.validated[dir := now]), root);
        ExtendTransitive(w.session, s, s.(validated := s.validated[dir := now]));
      }
      SessionStepFrom(w, Next(w, op, now));
    } else {
      SessionStepFrom(w, w);
    }
  }

  lemma CreateNodes(w: World, op: Op, now: Time)
    requires SessionOk(w) && (op.OpCreate? || op.OpMkdir?)
    ensures SessionStep(w, Next(w, op, now)) && NodesExtend(w.session, Next(w, op, now).session)
  {
    hide NodeTable, Intern, Within, Join, NodesExtend, CM.Cache.PutAttrs, CM.Cache.InvalidateChildren;
    var root := w.config.root;
    SameNodes(w.session, w.session, root);
    var child := ChildOf(w.session, op.parent, op.name);
    if child.Ok? {
      ChildConfined(w.session, root, op.parent, op.name);
      var stamped := w.session.(validated := w.session.validated[child.value := now],
                                negative := w.session.negative - {(op.parent, op.name)});
      TouchAndIntern(w.session, stamped, root, child.value);
      var s := Intern(stamped, child.value).0;
      var withHandle := OpenHandle(s, Intern(w.session, child.value).1, child.value).0;
      SameNodes(s, withHandle, root);
      ExtendTransitive(w.session, s, withHandle);
    }
    SessionStepFrom(w, Next(w, op, now));
  }

  lemma RenameOpNodes(w: World, op: Op, now: Time)
    requires SessionOk(w) && op.OpRename?
    ensures SessionStep(w, Next(w, op, now))
  {
    var from, to := ChildOf(w.session, op.parent, op.name), ChildOf(w.session, op.newParent, op.newName);
    SameNodes(w.session, w.session, w.config.root);
    if from.Ok? && to.Ok? {
      ChildConfined(w.session, w.config.root, op.newParent, op.newName);
      ChildNotRoot(w.session, w.config.root, op.parent, op.name);
      ChildNotRoot(w.session, w.config.root, op.newParent, op.newName);
      RenameNodes(w.session, w.config.root, from.value, to.value);
      hide NodeTable, Within, Join, RenamePath, CM.Cache.Rename, CM.Cache.InvalidateChildren;
      var s := RenamePath(w.session, from.value, to.value);
      var w' := Next(w, op, now);
      if op.done.Ok? && !w.config.readOnly { SameNodes(s, w'.session, w.config.root); }
    }
  }

  /** Operations on a node, a handle or a name that leave the node tables alone. */
  lemma FileNodes(w: World, op: Op, now: Time)
    requires SessionOk(w) && (op.OpGetattr? || op.OpRead? || op.OpWrite? || op.OpRelease? || op.OpSetattr?)
    ensures SessionStep(w, Next(w, op, now)) && NodesExtend(w.session, Next(w, op, now).session)
  {
    hide NodeTable, NodesExtend, CM.Cache.PutAttrs, CM.Cache.Remove, CM.Cache.InvalidateContent, CM.Cache.Read,
      CM.Cache.ReadCached, CM.Cache.Attrs, ContentEvents;
    SameNodes(w.session, Next(w, op, now).session, w.config.root);
    SessionStepFrom(w, Next(w, op, now));
  }

  lemma NameNodes(w: World, op: Op, now: Time)
    requires SessionOk(w) && (op.OpUnlink? || op.OpRmdir?)
    ensures SessionStep(w, Next(w, op, now)) && NodesExtend(w.session, Next(w, op, now).session)
  {
    hide NodeTable, NodesExtend, Join, CM.Cache.Remove, CM.Cache.InvalidateChildren;
    SameNodes(w.session, Next(w, op, now).session, w.config.root);
    SessionStepFrom(w, Next(w, op, now));
  }

  lemma OpenHandleNodes(s: Session, root: Path, node: NodeId, p: Path, stamps: map<Path, Time>)
    requires NodeTable(s, root) && Within(root, p)
    ensures NodeTable(OpenHandle(s.(validated := stamps), node, p).0, root)
    ensures NodesExtend(s, OpenHandle(s.(validated := stamps), node, p).0)
  {
    hide Within;
    SameNodes(s, OpenHandle(s.(validated := stamps), node, p).0, root);
  }

  lemma OpenNodes(w: World, op: Op, now: Time)
    requires SessionOk(w) && op.OpOpen?
    ensures SessionStep(w, Next(w, op, now)) && NodesExtend(w.session, Next(w, op, now).session)
  {
    SameNodes(w.session, w.session, w.config.root);
    if op.node in w.session.nodeToPath {
      var p := w.session.nodeToPath[op.node];
      OpenHandleNodes(w.session, w.config.root, op.node, p, w.session.validated);
      OpenHandleNodes(w.session, w.config.root, op.node, p, w.session.validated - {p});
      assert w.session.(validated := w.session.validated) == w.session;
    }
    hide NodeTable, NodesExtend, OpenHandle, CM.Cache.InvalidateContent;
    SessionStepFrom(w, Next(w, op, now));
  }

  /**
   Node identity. Every operation keeps the node table; outside a restart no issued node loses its path and no
   id is reused; and only a rename changes the path of a node.
   */
  lemma NodesStep(w: World, op: Op, now: Time)
    requires SessionOk(w)
    ensures Next(w, op, now).config.root == w.config.root && SessionOk(Next(w, op, now))
    ensures !op.OpRestart? ==> NodesGrow(w.session, Next(w, op, now).session)
    ensures !op.OpRestart? && !op.OpRename? ==> NodesExtend(w.session, Next(w, op, now).session)
  {
    if op.OpRestart? {
      WithinSelf(w.config.root);
    } else {
      hide Next, NodesExtend, NodesGrow, NodeTable;
      match op
      case OpLookup(_, _, _) => LookupNodes(w, op, now);
      case OpReaddir(_, _) => ReaddirNodes(w, op, now);
      case OpCreate(_, _, _) => CreateNodes(w, op, now);
      case OpMkdir(_, _, _) => CreateNodes(w, op, now);
      case OpRename(_, _, _, _, _) => RenameOpNodes(w, op, now);
      case OpOpen(_, _, _) => OpenNodes(w, op, now);
      case OpUnlink(_, _, _) => NameNodes(w, op, now);
      case OpRmdir(_, _, _) => NameNodes(w, op, now);
      case _ => FileNodes(w, op, now);
    }
  }

  lemma SameConfig(w: World, op: Op, now: Time)
    requires !op.OpRestart?
    ensures Next(w, op, now).config == w.config
  {
    hide Join, Intern, InternAll, CachedChildren, StampAll, RealChildren, CM.Cache.RecordListing, CM.Cache.PutAttrs,
      CM.Cache.Remove, CM.Cache.InvalidateContent, CM.Cache.InvalidateChildren, CM.Cache.Rename, CM.Cache.Read,
      CM.Cache.ReadCached, CM.Cache.Attrs, ContentEvents;
  }

  ghost predicate NoRestart(ops: seq<Timed>) {
    forall i :: 0 <= i < |ops| ==> !ops[i].op.OpRestart?
  }

  /**
   Over any run of one session: the table invariant, stable issued nodes, and a root node that stays the mount root.
   */
  lemma {:induction false} NodesRun(w: World, ops: seq<Timed>, w': World)
    requires SessionOk(w) && Runs(w, ops, w') && NoRestart(ops)
    ensures w'.config.root == w.config.root && SessionOk(w') && NodesGrow(w.session, w'.session)
    ensures ROOT in w'.session.nodeToPath && w'.session.nodeToPath[ROOT] == w.config.root
    decreases |ops|
  {
    if ops != [] {
      hide Next;
      assert !ops[0].op.OpRestart?;
      NodesStep(w.(clock := ops[0].now), ops[0].op, ops[0].now);
      NodesRun(Tick(w, ops[0].op, ops[0].now), ops[1..], w');
    }
  }

  /** After a successful rename, looking up the new name finds the node that had the old one. */
  lemma RenameKeepsNode(w: World, parent: NodeId, name: string, newParent: NodeId, newName: string,
                        now: Time, later: Time, attrs: Result<FileAttributes>)
    requires SessionOk(w) && Rename(w, parent, name, newParent, newName, now, Ok(())).1.Ok?
    requires ChildOf(w.session, parent, name).value in w.session.pathToNode
    requires newParent != w.session.pathToNode[ChildOf(w.session, parent, name).value]
    ensures var w' := Rename(w, parent, name, newParent, newName, now, Ok(())).0;
      var found := Lookup(w', newParent, newName, later, attrs).1;
      found.Ok? ==> found.value.node == w.session.pathToNode[ChildOf(w.session, parent, name).value]
  {
    var from, to := ChildOf(w.session, parent, name).value, ChildOf(w.session, newParent, newName).value;
    ChildConfined(w.session, w.config.root, newParent, newName);
    ChildNotRoot(w.session, w.config.root, parent, name);
    ChildNotRoot(w.session, w.config.root, newParent, newName);
    RenameNodes(w.session, w.config.root, from, to);
    hide NodeTable, Within, Join, CM.Cache.Rename, CM.Cache.InvalidateChildren;
    var w' := Rename(w, parent, name, newParent, newName, now, Ok(())).0;
    assert w'.session.nodeToPath == RenamePath(w.session, from, to).nodeToPath;
    assert w'.session.pathToNode == RenamePath(w.session, from, to).pathToNode;
    assert w'.session.nodeToPath[newParent] == w.session.nodeToPath[newParent];
    assert ChildOf(w'.session, newParent, newName) == Ok(to);
    LookupFinds(w', newParent, newName, later, attrs, to);
  }

  /** Whatever way a lookup succeeds, a known path yields its known node. */
  lemma LookupFinds(w: World, parent: NodeId, name: string, now: Time, attrs: Result<FileAttributes>, p: Path)
    requires ChildOf(w.session, parent, name) == Ok(p) && p in w.session.pathToNode
    ensures Lookup(w, parent, name, now, attrs).1.Ok? ==>
      Lookup(w, parent, name, now, attrs).1.value.node == w.session.pathToNode[p]
  {
    hide Join, ChildOf, CM.Cache.PutAttrs, CM.Cache.Remove, CM.Cache.Attrs;
  }

  // ---- Confinement -----------------------------------------------------------

  /** The paths a remote call names. */
  ghost predicate EventWithin(root: Path, e: Event) {
    match e
    case ContentEvent(read) => Within(root, read.path)
    case RenameEvent(path, _, _, to, _, _) => Within(root, path) && Within(root, to)
    case _ => Within(root, e.path)
  }

  ghost predicate AllWithin(root: Path, log: seq<Event>) {
    forall i :: 0 <= i < |log| ==> EventWithin(root, log[i])
  }

  ghost predicate LogWithin(w: World) { AllWithin(w.config.root, w.log) }

  lemma AppendWithin(root: Path, log: seq<Event>, e: Event)
    requires AllWithin(root, log) && EventWithin(root, e)
    ensures AllWithin(root, log + [e])
  {
  }

  lemma ReadEventsPath(c: CM.Cache, p: Path, attrs: FileAttributes, offset: U64, size: U32, script: CM.Script)
    ensures forall e :: e in c.Read(p, attrs, offset, size, script).events ==> e.path == p
  {
    hide CM.Cache.Hydrate;
    CacheReads.ReadMinimal(c, p, attrs, offset, size, script);
  }

  /** A lookup logs at most the one stat of the child. */
  lemma LookupCalls(w: World, parent: NodeId, name: string, now: Time, reply: Result<FileAttributes>)
    ensures var w', child := Lookup(w, parent, name, now, reply).0, ChildOf(w.session, parent, name);
      && w'.config == w.config
      && (w'.log != w.log ==>
            child.Ok? && w'.log == w.log + [StatEvent(child.value, now, Some((parent, name)), reply)])
  {
    hide ChildOf, Intern, CM.Cache.PutAttrs, CM.Cache.Remove, CM.Cache.Attrs;
  }

  lemma LookupLog(w: World, parent: NodeId, name: string, now: Time, reply: Result<FileAttributes>)
    requires SessionOk(w) && LogWithin(w)
    ensures AllWithin(w.config.root, Lookup(w, parent, name, now, reply).0.log)
  {
    LookupCalls(w, parent, name, now, reply);
    hide Lookup;
    if ChildOf(w.session, parent, name).Ok? {
      ChildConfined(w.session, w.config.root, parent, name);
      hide ChildOf, Within;
      AppendWithin(w.config.root, w.log,
                   StatEvent(ChildOf(w.session, parent, name).value, now, Some((parent, name)), reply));
    }
  }

  lemma CreateCalls(w: World, op: Op, now: Time)
    requires op.OpCreate? || op.OpMkdir?
    ensures var w', child, key := Next(w, op, now), ChildOf(w.session, op.parent, op.name), Some((op.parent, op.name));
      w'.log != w.log ==>
        && child.Ok?
        && w'.log == w.log + [if op.OpCreate? then CreateEvent(child.value, now, key, op.attrs)
                              else MkdirEvent(child.value, now, key, op.attrs)]
  {
    assert ChildOf(w.session, op.parent, op.name).Ok? ==> op.parent in w.session.nodeToPath;
    hide ChildOf, Intern, CM.Cache.PutAttrs, CM.Cache.InvalidateChildren;
  }

  lemma CreateLog(w: World, op: Op, now: Time)
    requires SessionOk(w) && LogWithin(w) && (op.OpCreate? || op.OpMkdir?)
    ensures AllWithin(w.config.root, Next(w, op, now).log)
  {
    CreateCalls(w, op, now);
    hide Next;
    var child := ChildOf(w.session, op.parent, op.name);
    if child.Ok? {
      ChildConfined(w.session, w.config.root, op.parent, op.name);
      hide ChildOf, Within;
      AppendWithin(w.config.root, w.log, CreateEvent(child.value, now, Some((op.parent, op.name)), op.attrs));
      AppendWithin(w.config.root, w.log, MkdirEvent(child.value, now, Some((op.parent, op.name)), op.attrs));
    }
  }

  lemma RemoveCalls(w: World, op: Op, now: Time)
    requires op.OpUnlink? || op.OpRmdir?
    ensures var w', child, key := Next(w, op, now), ChildOf(w.session, op.parent, op.name), Some((op.parent, op.name));
      w'.log != w.log ==>
        && child.Ok?
        && w'.log == w.log + [if op.OpUnlink? then UnlinkEvent(child.value, now, key, op.done)
                              else RmdirEvent(child.value, now, key, op.done)]
  {
    assert ChildOf(w.session, op.parent, op.name).Ok? ==> op.parent in w.session.nodeToPath;
    hide ChildOf, CM.Cache.Remove, CM.Cache.InvalidateChildren;
  }

  lemma RemoveLog(w: World, op: Op, now: Time)
    requires SessionOk(w) && LogWithin(w) && (op.OpUnlink? || op.OpRmdir?)
    ensures AllWithin(w.config.root, Next(w, op, now).log)
  {
    RemoveCalls(w, op, now);
    hide Next;
    var child := ChildOf(w.session, op.parent, op.name);
    if child.Ok? {
      ChildConfined(w.session, w.config.root, op.parent, op.name);
      hide ChildOf, Within;
      AppendWithin(w.config.root, w.log, UnlinkEvent(child.value, now, Some((op.parent, op.name)), op.done));
      AppendWithin(w.config.root, w.log, RmdirEvent(child.value, now, Some((op.parent, op.name)), op.done));
    }
  }

  lemma RenameLog(w: World, op: Op, now: Time)
    requires SessionOk(w) && LogWithin(w) && op.OpRename?
    ensures AllWithin(w.config.root, Next(w, op, now).log)
  {
    var from, to := ChildOf(w.session, op.parent, op.name), ChildOf(w.session, op.newParent, op.newName);
    if from.Ok? && to.Ok? {
      ChildConfined(w.session, w.config.root, op.parent, op.name);
      ChildConfined(w.session, w.config.root, op.newParent, op.newName);
      AppendWithin(w.config.root, w.log,
        RenameEvent(from.value, now, Some((op.parent, op.name)), to.value, (op.newParent, op.newName), op.done));
    }
    hide AllWithin, NodeTable, Within, Join, RenamePath, CM.Cache.Rename, CM.Cache.InvalidateChildren;
  }

  lemma GetattrLog(w: World, node: NodeId, now: Time, reply: Result<FileAttributes>)
    requires SessionOk(w) && LogWithin(w)
    ensures AllWithin(w.config.root, Getattr(w, node, now, reply).0.log)
  {
    if node in w.session.nodeToPath {
      AppendWithin(w.config.root, w.log, StatEvent(w.session.nodeToPath[node], now, None, reply));
    }
    hide AllWithin, NodeTable, Within, CM.Cache.PutAttrs, CM.Cache.Remove, CM.Cache.Attrs;
  }

  lemma ReaddirLog(w: World, node: NodeId, now: Time, reply: Result<Listing>)
    requires SessionOk(w) && LogWithin(w)
    ensures AllWithin(w.config.root, Readdir(w, node, now, reply).0.log)
  {
    if node in w.session.nodeToPath {
      AppendWithin(w.config.root, w.log, ReadDirEvent(w.session.nodeToPath[node], now, reply));
    }
    hide AllWithin, NodeTable, Within, InternAll, StampAll, RealChildren, CachedChildren, CM.Cache.RecordListing,
      CM.Cache.Children;
  }

  lemma SetattrLog(w: World, op: Op, now: Time)
    requires SessionOk(w) && LogWithin(w) && (op.OpOpen? || op.OpSetattr?)
    ensures AllWithin(w.config.root, Next(w, op, now).log)
  {
    if op.node in w.session.nodeToPath {
      var p := w.session.nodeToPath[op.node];
      AppendWithin(w.config.root, w.log, SetattrEvent(p, now, if op.OpOpen? then TRUNCATE else op.change, op.attrs));
    }
    hide AllWithin, NodeTable, Within, OpenHandle, CM.Cache.PutAttrs, CM.Cache.InvalidateContent;
  }

  lemma HandleLog(w: World, op: Op, now: Time)
    requires SessionOk(w) && LogWithin(w) && (op.OpWrite? || op.OpRelease? || op.OpRestart?)
    ensures AllWithin(w.config.root, Next(w, op, now).log)
  {
    if op.OpWrite? && op.handle in w.session.handles {
      var p := w.session.handles[op.handle].path;
      assert Within(w.config.root, p);
      hide Within, NodeTable;
      AppendWithin(w.config.root, w.log, WriteEvent(p, op.at, op.data, op.written));
    }
    hide AllWithin, EventWithin, NodeTable, Within, CM.Cache.InvalidateContent, CM.Cache.Reopen;
  }

  lemma ContentWithin(root: Path, log: seq<Event>, events: seq<CM.ReadEvent>, p: Path)
    requires AllWithin(root, log) && Within(root, p) && forall e :: e in events ==> e.path == p
    ensures AllWithin(root, log + ContentEvents(events))
  {
    hide Within;
  }

  lemma ReadLog(w: World, op: Op, now: Time)
    requires SessionOk(w) && LogWithin(w) && op.OpRead?
    ensures AllWithin(w.config.root, Next(w, op, now).log)
  {
    if op.handle in w.session.handles {
      var file := w.session.handles[op.handle];
      assert Within(w.config.root, file.path);
      AppendWithin(w.config.root, w.log, ContentEvent(CM.ReadEvent(file.path, op.offset, op.size, op.direct)));
      GetattrLog(w, file.node, now, op.attrs);
      hide AllWithin, NodeTable, Within, Getattr, CM.Cache.Read, CM.Cache.ReadCached, ContentEvents;
      var (w1, meta) := Getattr(w, file.node, now, op.attrs);
      if meta.Ok? {
        ReadEventsPath(w1.cache, file.path, meta.value.attributes, op.offset, op.size, op.script);
        var events := w1.cache.Read(file.path, meta.value.attributes, op.offset, op.size, op.script).events;
        ContentWithin(w.config.root, w1.log, events, file.path);
      }
    }
  }

  lemma LogStep(w: World, op: Op, now: Time)
    requires SessionOk(w) && LogWithin(w)
    ensures LogWithin(Next(w, op, now))
  {
    NodesStep(w, op, now);
    hide SessionOk, AllWithin, Lookup, Getattr, Readdir, Open, Read, Write, Release, Create, Mkdir, Unlink, Rmdir,
      Rename, Setattr;
    match op
    case OpLookup(parent, name, attrs) => LookupLog(w, parent, name, now, attrs);
    case OpGetattr(node, attrs) => GetattrLog(w, node, now, attrs);
    case OpReaddir(node, listing) => ReaddirLog(w, node, now, listing);
    case OpOpen(_, _, _) => SetattrLog(w, op, now);
    case OpSetattr(_, _, _) => SetattrLog(w, op, now);
    case OpRead(_, _, _, _, _, _) => ReadLog(w, op, now);
    case OpWrite(_, _, _, _) => HandleLog(w, op, now);
    case OpRelease(_) => HandleLog(w, op, now);
    case OpRestart(_, _, _, _) => HandleLog(w, op, now);
    case OpCreate(_, _, _) => CreateLog(w, op, now);
    case OpMkdir(_, _, _) => CreateLog(w, op, now);
    case OpUnlink(_, _, _) => RemoveLog(w, op, now);
    case OpRmdir(_, _, _) => RemoveLog(w, op, now);
    case OpRename(_, _, _, _, _) => RenameLog(w, op, now);
  }

  /**
   Confinement. Over any run, restarts included, every path sent to the remote is the mount root or the root
   extended by one or more valid components, whatever names the callers passed in.
   */
  lemma {:induction false} ConfinedRun(w: World, ops: seq<Timed>, w': World)
    requires SessionOk(w) && LogWithin(w) && Runs(w, ops, w')
    ensures w'.config.root == w.config.root && SessionOk(w') && LogWithin(w')
    decreases |ops|
  {
    if ops != [] {
      hide Next;
      var w0 := w.(clock := ops[0].now);
      NodesStep(w0, ops[0].op, ops[0].now);
      LogStep(w0, ops[0].op, ops[0].now);
      ConfinedRun(Tick(w, ops[0].op, ops[0].now), ops[1..], w');
    }
  }

  /** A fresh mount satisfies the invariants. */
  lemma MountOk(config: Config, cache: CM.Cache)
    ensures SessionOk(Mount(config, cache)) && LogWithin(Mount(config, cache))
    ensures Bijective(Mount(config, cache).session)
  {
    WithinSelf(config.root);
  }
}
