/** A concrete single-writer run in which a cached listing outlives its directory. */
module VfsOrphanRun {
  import opened Base
  import opened RemotePaths
  import I = CacheIndex
  import CM = CacheModel
  import opened VfsModel
  import opened VfsRemote
  import L = VfsLimits
  import D = VfsDirectories
  import opened VfsViews

  const DIR: FileAttributes := L.Attributes(Directory, 0)
  const KNOWN: I.Entry := I.Entry(DIR, None)

  const LOOK_D: Op := OpLookup(ROOT, "d", Ok(DIR))
  const LOOK_S: Op := OpLookup(2, "s", Ok(DIR))
  const AWAY: Op := OpRename(ROOT, "d", ROOT, "x", Ok(()))
  const BACK: Op := OpRename(ROOT, "x", ROOT, "d", Ok(()))
  const LIST_S: Op := OpReaddir(3, Ok([]))

  /** The root with one directory, which has one directory `s`. */
  function TreeAt(dir: Path): Tree { map["/" := DirNode, dir := DirNode, dir + "/s" := DirNode] }

  predicate Short(dir: Path) { |dir| == 2 && dir[0] == '/' && dir[1] != '/' }

  lemma DirectoryMoves(a: Path, b: Path)
    requires Short(a) && Short(b) && a[1] != b[1]
    ensures TreeMoved(TreeAt(a), a, b, TreeAt(b)) && (forall k :: k in TreeAt(a) ==> !Under(b, k)) && !Under(a, b)
  {
    var r, r' := TreeAt(a), TreeAt(b);
    assert (a + "/")[1] == a[1] && (b + "/")[1] == b[1] && (a + "/s")[1] == a[1];
    forall k
      ensures k in r' <==> if Under(b, k) then a + k[|b|..] in r else k in r && !Under(a, k)
    {
      if Under(b, k) {
        assert k == b + k[2..] && (a + k[2..])[1] == a[1];
        assert a + k[2..] == a + "/s" <==> k[2..] == "/s" by {
          assert (a + k[2..])[2..] == k[2..] && (a + "/s")[2..] == "/s";
        }
        assert a + k[2..] == a <==> k[2..] == "" by { assert (a + k[2..])[2..] == k[2..]; }
      } else {
        assert Under(b, b) && Under(b, b + "/s") && Under(a, a) && Under(a, a + "/s");
      }
    }
    assert forall k :: k in r' ==> r'[k] == DirNode;
    assert forall k :: k in r ==> r[k] == DirNode;
  }

  lemma Names()
    ensures Join("/", "d") == Ok("/d") && Join("/", "x") == Ok("/x") && Join("/d", "s") == Ok("/d/s")
    ensures "/d" + "/s" == "/d/s" && |"/"| != |"/d"| && |"/d"| != |"/d/s"| && "/d" != "/x" && "/x" != "/d/s"
  {
    assert Trim("/") == "" by { assert "/"[..0] == ""; }
    assert Trim("/d") == "/d";
    assert Split("/", '/') == ["", ""] by { assert "/"[1..] == ""; }
    assert Accepted("/");
    JoinAccepted("/", "d");
    JoinAccepted("/", "x");
    assert Child("/", "d") == "/d" && Child("/", "x") == "/x";
    JoinAccepted("/d", "s");
    assert Child("/d", "s") == "/d/s";
    assert "/d"[1] != "/x"[1] && |"/x"| != |"/d/s"|;
  }

  // ---- The worlds of the run -------------------------------------------------

  function Start(): World { L.FreshMount() }

  /** What matters of a world of this run. */
  ghost predicate Looks(w: World, nodes: map<NodeId, Path>, paths: map<Path, NodeId>, entries: map<Path, I.Entry>,
                        listings: map<Path, seq<string>>) {
    && w.config == L.FreshMount().config && w.clock == 0
    && w.session.nodeToPath == nodes && w.session.pathToNode == paths && w.session.nextNode == |nodes| + 1
    && w.cache.index.entries == entries && w.cache.index.listings == listings
  }

  /** A lookup that has to ask and succeeds. */
  lemma LookupCalls(w: World, op: Op, p: Path)
    requires op.OpLookup? && op.attrs.Ok? && !w.IsOffline() && ChildOf(w.session, op.parent, op.name) == Ok(p)
    requires p !in w.session.validated && (op.parent, op.name) !in w.session.negative && p !in w.session.pathToNode
    ensures var w' := Next(w, op, w.clock);
      && w'.config == w.config && w'.clock == w.clock && w'.cache == w.cache.PutAttrs(p, op.attrs.value)
      && w'.log == w.log + [StatEvent(p, w.clock, Some((op.parent, op.name)), op.attrs)]
      && w'.session == w.session.(
           nextNode := w.session.nextNode + 1, pathToNode := w.session.pathToNode[p := w.session.nextNode],
           nodeToPath := w.session.nodeToPath[w.session.nextNode := p],
           validated := w.session.validated[p := w.clock], negative := w.session.negative)
  {
    assert w.session.negative - {(op.parent, op.name)} == w.session.negative;
    hide Join, CM.Cache.PutAttrs, CM.Cache.Remove;
  }

  lemma Looked(w1: World, w2: World)
    requires w1 == Next(Start(), LOOK_D, 0) && w2 == Next(w1, LOOK_S, 0)
    ensures Looks(w1, map[1 := "/", 2 := "/d"], map["/" := 1, "/d" := 2], map["/d" := KNOWN], map[])
    ensures Looks(w2, map[1 := "/", 2 := "/d", 3 := "/d/s"], map["/" := 1, "/d" := 2, "/d/s" := 3],
                  map["/d" := KNOWN, "/d/s" := KNOWN], map[])
    ensures w1.log == Start().log + [StatEvent("/d", 0, Some((ROOT, "d")), Ok(DIR))]
    ensures w2.log == w1.log + [StatEvent("/d/s", 0, Some((2, "s")), Ok(DIR))]
  {
    Names();
    hide Join, Next;
    LookupCalls(Start(), LOOK_D, "/d");
    LookupCalls(w1, LOOK_S, "/d/s");
  }

  /** Renaming a directory whose child `/d/s` may be known. */
  lemma EntriesMove(ix: I.Index, from: Path, to: Path)
    requires Short(from) && Short(to) && from[1] != to[1]
    requires ix.entries == map[from := KNOWN] || ix.entries == map[from := KNOWN, from + "/s" := KNOWN]
    requires ix.listings == map[]
    ensures I.Rename(ix, from, to).0.entries == map[to := KNOWN] && I.Rename(ix, from, to).0.listings == map[]
  {
    var moved := I.Moved(ix, from, to);
    assert (from + "/")[1] == from[1] && from + "/" <= from + "/s";
    assert I.Descendants(moved, from) == (if from + "/s" in ix.entries then {from + "/s"} else {});
    assert moved.listings == map[];
  }

  lemma CacheMoves(c: CM.Cache, from: Path, to: Path)
    requires Short(from) && Short(to) && from[1] != to[1] && c.index.listings == map[]
    requires c.index.entries == map[from := KNOWN] || c.index.entries == map[from := KNOWN, from + "/s" := KNOWN]
    ensures var ix' := c.Rename(from, to).InvalidateChildren("/").InvalidateChildren("/").index;
      ix'.entries == map[to := KNOWN] && ix'.listings == map[]
  {
    EntriesMove(c.index, from, to);
    hide I.Rename;
    assert c.Rename(from, to).index == I.Rename(c.index, from, to).0;
  }

  lemma TablesMove(s: Session, from: Path, to: Path)
    requires Short(from) && Short(to) && from[1] != to[1] && |"/d/s"| != |from|
    requires s.nodeToPath == map[1 := "/", 2 := from, 3 := "/d/s"]
    requires s.pathToNode == map["/" := 1, from := 2, "/d/s" := 3]
    ensures RenamePath(s, from, to).nodeToPath == map[1 := "/", 2 := to, 3 := "/d/s"]
    ensures RenamePath(s, from, to).pathToNode == map["/" := 1, to := 2, "/d/s" := 3]
  {
  }

  lemma RenamedLooks(w: World, w': World, op: Op, from: Path, to: Path, entries: map<Path, I.Entry>)
    requires op.OpRename? && op.parent == ROOT && op.newParent == ROOT && op.done == Ok(()) && w' == Next(w, op, 0)
    requires Join("/", op.name) == Ok(from) && Join("/", op.newName) == Ok(to) && Short(from) && Short(to)
    requires from[1] != to[1]
    requires entries == map[from := KNOWN] || entries == map[from := KNOWN, from + "/s" := KNOWN]
    requires Looks(w, map[1 := "/", 2 := from, 3 := "/d/s"], map["/" := 1, from := 2, "/d/s" := 3], entries, map[])
    ensures Looks(w', map[1 := "/", 2 := to, 3 := "/d/s"], map["/" := 1, to := 2, "/d/s" := 3], map[to := KNOWN], map[])
    ensures w'.log == w.log + [RenameEvent(from, 0, Some((ROOT, op.name)), to, (ROOT, op.newName), Ok(()))]
  {
    assert ChildOf(w.session, ROOT, op.name) == Ok(from) && ChildOf(w.session, ROOT, op.newName) == Ok(to);
    hide Join, Next, ChildOf, RenamePath, CM.Cache.Rename, CM.Cache.InvalidateChildren;
    RenameCalls(w, op, from, to);
    CacheMoves(w.cache, from, to);
    TablesMove(w.session, from, to);
  }

  lemma Listed(w: World, w': World)
    requires Looks(w, map[1 := "/", 2 := "/d", 3 := "/d/s"], map["/" := 1, "/d" := 2, "/d/s" := 3], map["/d" := KNOWN],
                   map[])
    requires w' == Next(w, LIST_S, 0)
    ensures Looks(w', map[1 := "/", 2 := "/d", 3 := "/d/s"], map["/" := 1, "/d" := 2, "/d/s" := 3],
                  map["/d" := KNOWN], map["/d/s" := []])
    ensures w'.log == w.log + [ReadDirEvent("/d/s", 0, Ok([]))]
  {
    assert RealChildren([]) == [];
    assert StampAll(w.session, "/d/s", [], 0) == (w.session, Ok([]));
    assert I.StoreChildren(w.cache.index, "/d/s", []) == (w.cache.index, {});
    assert I.Names([]) == [];
  }

  // ---- The remote's side -----------------------------------------------------

  lemma StatServed(w: World, op: Op, p: Path, key: (NodeId, string))
    requires w.clock == 0 && Next(w, op, 0).log == w.log + [StatEvent(p, 0, Some(key), Ok(DIR))]
    requires p in TreeAt("/d")
    ensures D.ServedFully(w, op, TreeAt("/d"), TreeAt("/d"))
  {
    var e := StatEvent(p, 0, Some(key), Ok(DIR));
    hide Next;
    assert CallsOf(w, Next(w, op, 0)) == [e];
  }

  lemma RenameChanges(op: Op, from: Path, to: Path)
    requires op.OpRename? && Short(from) && Short(to) && from[1] != to[1]
    ensures var e := RenameEvent(from, 0, Some((ROOT, op.name)), to, (ROOT, op.newName), Ok(()));
      TreeOk(TreeAt(to)) && Changes(TreeAt(from), e, TreeAt(to)) && D.Complete(TreeAt(from), e)
  {
    DirectoryMoves(from, to);
    hide TreeMoved, Under;
  }

  lemma RenameServed(w: World, op: Op, from: Path, to: Path)
    requires op.OpRename? && w.clock == 0 && Short(from) && Short(to) && from[1] != to[1]
    requires Next(w, op, 0).log == w.log + [RenameEvent(from, 0, Some((ROOT, op.name)), to, (ROOT, op.newName), Ok(()))]
    ensures D.ServedFully(w, op, TreeAt(from), TreeAt(to))
  {
    hide Next, TreeAt, Short, TreeOk, Changes, D.Complete;
    RenameChanges(op, from, to);
    var e := RenameEvent(from, 0, Some((ROOT, op.name)), to, (ROOT, op.newName), Ok(()));
    assert CallsOf(w, Next(w, op, 0)) == [e];
  }

  lemma NothingInside(name: string)
    ensures Join("/d/s", name).Ok? ==> Join("/d/s", name).value !in TreeAt("/d")
  {
    assert Trim("/d/s") == "/d/s";
    if Join("/d/s", name).Ok? { assert |Child("/d/s", name)| > 4; }
  }

  lemma ListServed(w: World)
    requires w.clock == 0 && Next(w, LIST_S, 0).log == w.log + [ReadDirEvent("/d/s", 0, Ok([]))]
    ensures D.ServedFully(w, LIST_S, TreeAt("/d"), TreeAt("/d"))
  {
    var e := ReadDirEvent("/d/s", 0, Ok([]));
    ListTruthful(e);
    hide Next, TreeAt, Truthful, D.Complete, TreeOk;
    assert CallsOf(w, Next(w, LIST_S, 0)) == [e];
  }

  lemma ListTruthful(e: Event)
    requires e == ReadDirEvent("/d/s", 0, Ok([]))
    ensures TreeOk(TreeAt("/d")) && Truthful(TreeAt("/d"), e) && D.Complete(TreeAt("/d"), e)
  {
    assert RealChildren([]) == [];
    Names();
    hide Join, RealChildren;
    forall name { NothingInside(name); }
    hide TreeAt;
    assert D.Complete(TreeAt("/d"), e);
  }

  lemma First(w: World, op: Op, r: Tree, r': Tree, rest: seq<Timed>, trees: seq<Tree>, w': World)
    requires w.clock == 0 && D.ServedFully(w, op, r, r') && D.NoOrphans(w, op)
    requires trees != [] && trees[0] == r' && D.SingleWriter(Next(w, op, 0), rest, trees, w')
    ensures D.SingleWriter(w, [Timed(op, 0)] + rest, [r] + trees, w')
  {
    hide Next, D.NoOrphans, D.ServedFully;
    assert ([Timed(op, 0)] + rest)[1..] == rest && ([r] + trees)[1..] == trees;
    assert w.(clock := 0) == w;
  }

  /** The worlds, in order, and that each step of the run is served. */
  lemma Worlds() returns (w1: World, w2: World, w3: World, w4: World, w5: World)
    ensures w1 == Next(Start(), LOOK_D, 0) && w2 == Next(w1, LOOK_S, 0) && w3 == Next(w2, AWAY, 0)
    ensures w4 == Next(w3, BACK, 0) && w5 == Next(w4, LIST_S, 0)
    ensures D.ServedFully(Start(), LOOK_D, TreeAt("/d"), TreeAt("/d"))
    ensures D.ServedFully(w1, LOOK_S, TreeAt("/d"), TreeAt("/d"))
    ensures D.ServedFully(w2, AWAY, TreeAt("/d"), TreeAt("/x")) && D.ServedFully(w3, BACK, TreeAt("/x"), TreeAt("/d"))
    ensures D.ServedFully(w4, LIST_S, TreeAt("/d"), TreeAt("/d"))
    ensures w2.cache.index.listings == map[] && w3.cache.index.listings == map[]
    ensures Looks(Start(), map[1 := "/"], map["/" := 1], map[], map[]) && w1.clock == 0 && w2.clock == 0
    ensures w3.clock == 0 && w4.clock == 0
    ensures Looks(w5, map[1 := "/", 2 := "/d", 3 := "/d/s"], map["/" := 1, "/d" := 2, "/d/s" := 3],
                  map["/d" := KNOWN], map["/d/s" := []])
  {
    Names();
    w1 := Next(Start(), LOOK_D, 0);
    w2 := Next(w1, LOOK_S, 0);
    w3 := Next(w2, AWAY, 0);
    w4 := Next(w3, BACK, 0);
    w5 := Next(w4, LIST_S, 0);
    hide Next, Join, D.ServedFully;
    Looked(w1, w2);
    RenamedLooks(w2, w3, AWAY, "/d", "/x", map["/d" := KNOWN, "/d" + "/s" := KNOWN]);
    RenamedLooks(w3, w4, BACK, "/x", "/d", map["/x" := KNOWN]);
    Listed(w4, w5);
    StatServed(Start(), LOOK_D, "/d", (ROOT, "d"));
    StatServed(w1, LOOK_S, "/d/s", (2, "s"));
    RenameServed(w2, AWAY, "/d", "/x");
    RenameServed(w3, BACK, "/x", "/d");
    ListServed(w4);
  }

  /**
   The directories "/d" and "/d/s" are looked up; "/d" is renamed to "/x" and back, which forgets the attributes of
   "/d/s"; "/d/s", whose node is still known, is listed. All of that keeps every cached listing true. When "/d" is then
   renamed again, the listing of "/d/s" stays, although there is no such directory any more.
   */
  lemma OrphanListingRun() returns (w: World, ops: seq<Timed>, trees: seq<Tree>)
    ensures D.SingleWriter(Start(), ops, trees, w) && trees != [] && trees[|trees| - 1] == TreeAt("/d")
    ensures D.ServedFully(w, AWAY, TreeAt("/d"), TreeAt("/x"))
    ensures "/d/s" in Next(w, AWAY, 0).cache.index.listings && "/d/s" !in TreeAt("/x")
  {
    var w1, w2, w3, w4, w5 := Worlds();
    w := w5;
    Away(w5);
    Unlisted(w2, AWAY);
    Unlisted(w3, BACK);
    assert D.NoOrphans(Start(), LOOK_D) && D.NoOrphans(w1, LOOK_S) && D.NoOrphans(w4, LIST_S);
    hide Next, D.ServedFully, D.NoOrphans, Looks, TreeAt, Start;
    assert D.SingleWriter(w, [], [TreeAt("/d")], w);
    hide D.SingleWriter;
    First(w4, LIST_S, TreeAt("/d"), TreeAt("/d"), [], [TreeAt("/d")], w);
    ops, trees := [Timed(LIST_S, 0)] + [], [TreeAt("/d")] + [TreeAt("/d")];
    First(w3, BACK, TreeAt("/x"), TreeAt("/d"), ops, trees, w);
    ops, trees := [Timed(BACK, 0)] + ops, [TreeAt("/x")] + trees;
    First(w2, AWAY, TreeAt("/d"), TreeAt("/x"), ops, trees, w);
    ops, trees := [Timed(AWAY, 0)] + ops, [TreeAt("/d")] + trees;
    First(w1, LOOK_S, TreeAt("/d"), TreeAt("/d"), ops, trees, w);
    ops, trees := [Timed(LOOK_S, 0)] + ops, [TreeAt("/d")] + trees;
    First(Start(), LOOK_D, TreeAt("/d"), TreeAt("/d"), ops, trees, w);
    ops, trees := [Timed(LOOK_D, 0)] + ops, [TreeAt("/d")] + trees;
  }

  lemma Unlisted(w: World, op: Op)
    requires w.cache.index.listings == map[]
    ensures D.NoOrphans(w, op)
  {
  }

  lemma Away(w: World)
    requires Looks(w, map[1 := "/", 2 := "/d", 3 := "/d/s"], map["/" := 1, "/d" := 2, "/d/s" := 3],
                   map["/d" := KNOWN], map["/d/s" := []])
    ensures D.ServedFully(w, AWAY, TreeAt("/d"), TreeAt("/x"))
    ensures "/d/s" in Next(w, AWAY, 0).cache.index.listings && "/d/s" !in TreeAt("/x")
  {
    Names();
    assert ChildOf(w.session, ROOT, "d") == Ok("/d") && ChildOf(w.session, ROOT, "x") == Ok("/x");
    hide Join, ChildOf, Next, RenamePath, CM.Cache.Rename, CM.Cache.InvalidateChildren;
    RenameCalls(w, AWAY, "/d", "/x");
    ListingStays(w.cache);
    hide D.ServedFully, Looks;
    RenameServed(w, AWAY, "/d", "/x");
    assert "/x" + "/s" != "/d/s" by { assert ("/x" + "/s")[1] != "/d/s"[1]; }
  }

  lemma ListingStays(c: CM.Cache)
    requires c.index.entries == map["/d" := KNOWN] && c.index.listings == map["/d/s" := []]
    ensures "/d/s" in c.Rename("/d", "/x").InvalidateChildren("/").InvalidateChildren("/").index.listings
  {
    Names();
    assert |"/d/s"| != |"/"| && |"/d/s"| != |"/d"| && |"/d/s"| != |"/x"|;
    hide CM.Cache.Rename, CM.Cache.InvalidateChildren;
    D.OrphanKept(c, "/d", "/x", "/", "/", "/d/s");
  }
}
