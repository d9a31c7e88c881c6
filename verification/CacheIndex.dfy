/**
 The cache index and its critical sections. Each function is what one section of `Store` does
 to the index while it holds the lock; the object ids it returns are deleted afterwards.
 */
module CacheIndex {
  import opened Base
  import opened RemotePaths

  /** Reference to hydrated content: the version it holds and one object per cached chunk. */
  datatype ContentRef = ContentRef(
    version: Version,
    chunkSize: nat,
    chunks: map<nat, ObjectId>,
    legacy: Option<ObjectId>)

  datatype Entry = Entry(attrs: FileAttributes, content: Option<ContentRef>)

  datatype Index = Index(
    nextObject: nat,
    entries: map<Path, Entry>,
    listings: map<Path, seq<string>>)

  const EMPTY: Index := Index(0, map[], map[])

  /** `content_objects` */
  function Objects(c: ContentRef): set<ObjectId> {
    c.chunks.Values + (if c.legacy.Some? then {c.legacy.value} else {})
  }

  function Content(ix: Index, p: Path): Option<ContentRef> {
    if p in ix.entries then ix.entries[p].content else None
  }

  /** Objects referenced by the entry of `p`. */
  function Held(ix: Index, p: Path): set<ObjectId> {
    if Content(ix, p).Some? then Objects(Content(ix, p).value) else {}
  }

  /** All objects the index references. */
  function Owned(ix: Index): set<ObjectId> {
    set p, o | p in ix.entries && o in Held(ix, p) :: o
  }

  // ---- Critical sections -----------------------------------------------------

  /** `store_attrs` */
  function StoreAttrs(ix: Index, key: Path, attrs: FileAttributes): (Index, set<ObjectId>) {
    var prior := Content(ix, key);
    if prior.Some? && prior.value.version != VersionOf(attrs) then
      (ix.(entries := ix.entries[key := Entry(attrs, None)]), Objects(prior.value))
    else
      (ix.(entries := ix.entries[key := Entry(attrs, prior)]), {})
  }

  /** The loop of `record_listing`: children whose name does not join are skipped. */
  function StoreChildren(ix: Index, parent: Path, children: seq<(string, FileAttributes)>): (Index, set<ObjectId>) {
    if children == [] then (ix, {})
    else
      var (ix1, orphans) := StoreChildren(ix, parent, children[..|children| - 1]);
      var (name, attrs) := children[|children| - 1];
      var child := Join(parent, name);
      if child.Err? then (ix1, orphans)
      else
        var (ix2, more) := StoreAttrs(ix1, child.value, attrs);
        (ix2, orphans + more)
  }

  function Names(children: seq<(string, FileAttributes)>): seq<string> {
    seq(|children|, i requires 0 <= i < |children| => children[i].0)
  }

  /** `record_listing` */
  function RecordListing(ix: Index, parent: Path, children: seq<(string, FileAttributes)>): (Index, set<ObjectId>) {
    var (ix1, orphans) := StoreChildren(ix, parent, children);
    (ix1.(listings := ix1.listings[parent := Names(children)]), orphans)
  }

  /** `invalidate_children` */
  function InvalidateChildren(ix: Index, p: Path): Index {
    ix.(listings := ix.listings - {p})
  }

  /** `remove` */
  function Remove(ix: Index, p: Path): (Index, set<ObjectId>) {
    (ix.(entries := ix.entries - {p}, listings := ix.listings - {p}), Held(ix, p))
  }

  /** `invalidate_content` */
  function InvalidateContent(ix: Index, p: Path): (Index, set<ObjectId>) {
    if p in ix.entries then
      (ix.(entries := ix.entries[p := ix.entries[p].(content := None)]), Held(ix, p))
    else
      (ix, {})
  }

  /** First half of `rename`: the entry and the listing change key. */
  function Move<T>(m: map<Path, T>, from: Path, to: Path): map<Path, T> {
    if from in m then (m - {from})[to := m[from]] else m
  }

  function Moved(ix: Index, from: Path, to: Path): Index {
    ix.(entries := Move(ix.entries, from, to), listings := Move(ix.listings, from, to))
  }

  /** Keys that the second half of `rename` evicts. */
  function Descendants(ix: Index, from: Path): set<Path> {
    set k | k in ix.entries && from + "/" <= k
  }

  /** Second half of `rename`. */
  function Evict(ix: Index, keys: set<Path>): (Index, set<ObjectId>) {
    (ix.(entries := ix.entries - keys, listings := ix.listings - keys),
     set k, o | k in keys && o in Held(ix, k) :: o)
  }

  /** `rename` */
  function Rename(ix: Index, from: Path, to: Path): (Index, set<ObjectId>) {
    var moved := Moved(ix, from, to);
    Evict(moved, Descendants(moved, from))
  }

  /** The closing section of `fetch_chunk`: record the chunk, give up whatever it replaces. */
  function Commit(ix: Index, p: Path, attrs: FileAttributes, cs: nat, chunk: nat,
                  obj: ObjectId): (Index, set<ObjectId>) {
    var kept := if p in ix.entries then ix.entries[p].attrs else attrs;
    var prior := Content(ix, p);
    var v := VersionOf(attrs);
    if prior.None? || prior.value.version != v || prior.value.chunkSize != cs then
      var content := ContentRef(v, cs, map[chunk := obj], None);
      (ix.(entries := ix.entries[p := Entry(kept, Some(content))]), Held(ix, p))
    else
      var content := prior.value.(chunks := prior.value.chunks[chunk := obj]);
      (ix.(entries := ix.entries[p := Entry(kept, Some(content))]),
       if chunk in prior.value.chunks then {prior.value.chunks[chunk]} else {})
  }

  /** Recording this chunk would only add to what is cached. */
  ghost predicate FreeSlot(ix: Index, cs: nat, p: Path, v: Version, chunk: nat) {
    var content := Content(ix, p);
    content.Some? ==> content.value.version == v && content.value.chunkSize == cs && chunk !in content.value.chunks
  }

  // ---- Ownership -------------------------------------------------------------

  /** No object is referenced twice inside one entry. */
  ghost predicate Distinct(c: ContentRef) {
    && (forall i, j :: i in c.chunks && j in c.chunks && i != j ==> c.chunks[i] != c.chunks[j])
    && (c.legacy.Some? ==> forall i :: i in c.chunks ==> c.chunks[i] != c.legacy.value)
  }

  /** No object is referenced by two slots. */
  ghost predicate NoSharing(ix: Index) {
    && (forall p :: Content(ix, p).Some? ==> Distinct(Content(ix, p).value))
    && (forall p, q :: p in ix.entries && q in ix.entries && p != q ==> Held(ix, p) !! Held(ix, q))
  }

  /** A section that only gives content up: what it keeps is untouched, and it reports exactly what it dropped. */
  ghost predicate Sheds(ix: Index, ix': Index, orphans: set<ObjectId>) {
    && ix'.nextObject == ix.nextObject
    && (forall p :: Content(ix', p) == Content(ix, p) || (Content(ix', p) == None && Held(ix, p) <= orphans))
    && (forall o :: o in orphans ==> exists p :: Content(ix', p) == None && o in Held(ix, p))
  }

  lemma StoreAttrsSheds(ix: Index, key: Path, attrs: FileAttributes)
    ensures Sheds(ix, StoreAttrs(ix, key, attrs).0, StoreAttrs(ix, key, attrs).1)
  {
    var (ix', orphans) := StoreAttrs(ix, key, attrs);
    assert forall o :: o in orphans ==> Content(ix', key) == None && o in Held(ix, key);
  }

  lemma RemoveSheds(ix: Index, p: Path)
    ensures Sheds(ix, Remove(ix, p).0, Remove(ix, p).1)
  {
    var (ix', orphans) := Remove(ix, p);
    assert forall o :: o in orphans ==> Content(ix', p) == None && o in Held(ix, p);
  }

  lemma InvalidateContentSheds(ix: Index, p: Path)
    ensures Sheds(ix, InvalidateContent(ix, p).0, InvalidateContent(ix, p).1)
  {
    var (ix', orphans) := InvalidateContent(ix, p);
    assert forall o :: o in orphans ==> Content(ix', p) == None && o in Held(ix, p);
  }

  lemma EvictSheds(ix: Index, keys: set<Path>)
    ensures Sheds(ix, Evict(ix, keys).0, Evict(ix, keys).1)
  {
  }

  lemma ShedsCompose(ix: Index, ix1: Index, ix2: Index, orphans: set<ObjectId>, more: set<ObjectId>)
    requires Sheds(ix, ix1, orphans) && Sheds(ix1, ix2, more)
    ensures Sheds(ix, ix2, orphans + more)
  {
    forall o | o in orphans + more
      ensures exists p :: Content(ix2, p) == None && o in Held(ix, p)
    {
      if o in orphans {
        var p :| Content(ix1, p) == None && o in Held(ix, p);
        assert Content(ix2, p) == None;
      } else {
        var p :| Content(ix2, p) == None && o in Held(ix1, p);
        assert Content(ix1, p) == Content(ix, p);
      }
    }
  }

  lemma {:induction false} StoreChildrenSheds(ix: Index, parent: Path, children: seq<(string, FileAttributes)>)
    ensures Sheds(ix, StoreChildren(ix, parent, children).0, StoreChildren(ix, parent, children).1)
    decreases |children|
  {
    if children != [] {
      var front := children[..|children| - 1];
      StoreChildrenSheds(ix, parent, front);
      var (ix1, orphans) := StoreChildren(ix, parent, front);
      var (name, attrs) := children[|children| - 1];
      if Join(parent, name).Ok? {
        StoreAttrsSheds(ix1, Join(parent, name).value, attrs);
        var (ix2, more) := StoreAttrs(ix1, Join(parent, name).value, attrs);
        ShedsCompose(ix, ix1, ix2, orphans, more);
      }
    }
  }

  /** Every listed occurrence of `q` has this version. */
  ghost predicate ListedAs(parent: Path, children: seq<(string, FileAttributes)>, q: Path, v: Version) {
    forall i :: 0 <= i < |children| && Join(parent, children[i].0) == Ok(q) ==> VersionOf(children[i].1) == v
  }

  /** A listing drops the content of exactly the paths it lists with another version than the one cached. */
  lemma {:induction false} StoreChildrenContent(ix: Index, parent: Path, children: seq<(string, FileAttributes)>,
                                                q: Path)
    ensures Content(StoreChildren(ix, parent, children).0, q) ==
      if Content(ix, q).Some? && ListedAs(parent, children, q, Content(ix, q).value.version) then Content(ix, q)
      else None
    decreases |children|
  {
    if children != [] {
      hide Join;
      var n := |children| - 1;
      StoreChildrenContent(ix, parent, children[..n], q);
      if Content(ix, q).Some? {
        var v := Content(ix, q).value.version;
        assert forall i :: 0 <= i < n ==> children[..n][i] == children[i];
        assert ListedAs(parent, children, q, v) <==>
          ListedAs(parent, children[..n], q, v)
            && (Join(parent, children[n].0) == Ok(q) ==> VersionOf(children[n].1) == v);
      }
    }
  }

  /** The listing as a whole. */
  lemma RecordListingContent(ix: Index, parent: Path, children: seq<(string, FileAttributes)>, q: Path)
    ensures Content(RecordListing(ix, parent, children).0, q) ==
      if Content(ix, q).Some? && ListedAs(parent, children, q, Content(ix, q).value.version) then Content(ix, q)
      else None
  {
    StoreChildrenContent(ix, parent, children, q);
  }

  lemma RecordListingSheds(ix: Index, parent: Path, children: seq<(string, FileAttributes)>)
    ensures Sheds(ix, RecordListing(ix, parent, children).0, RecordListing(ix, parent, children).1)
  {
    StoreChildrenSheds(ix, parent, children);
    var (ix1, orphans) := StoreChildren(ix, parent, children);
    var ix' := RecordListing(ix, parent, children).0;
    assert forall p :: Content(ix', p) == Content(ix1, p);
  }

  /** Shedding splits what was owned into what is still owned and what was reported. */
  lemma ShedsOwned(ix: Index, ix': Index, orphans: set<ObjectId>)
    requires Sheds(ix, ix', orphans) && NoSharing(ix)
    ensures NoSharing(ix')
    ensures Owned(ix) == Owned(ix') + orphans && Owned(ix') !! orphans
  {
    forall o | o in Owned(ix)
      ensures o in Owned(ix') + orphans
    {
      var p :| p in ix.entries && o in Held(ix, p);
      if Content(ix', p) == Content(ix, p) { assert p in ix'.entries && o in Held(ix', p); }
    }
    forall o | o in Owned(ix')
      ensures o in Owned(ix) && o !in orphans
    {
      var q :| q in ix'.entries && o in Held(ix', q);
      assert Content(ix', q) == Content(ix, q) && o in Held(ix, q);
    }
    forall o | o in orphans
      ensures o in Owned(ix)
    {
      var p :| Content(ix', p) == None && o in Held(ix, p);
      assert p in ix.entries;
    }
  }

  /** Moving an entry drops only what the target key held before. */
  lemma MovedOwned(ix: Index, from: Path, to: Path)
    requires NoSharing(ix)
    ensures NoSharing(Moved(ix, from, to))
    ensures var displaced := if from in ix.entries && from != to then Held(ix, to) else {};
      Owned(ix) == Owned(Moved(ix, from, to)) + displaced && Owned(Moved(ix, from, to)) !! displaced
    ensures Moved(ix, from, to).nextObject == ix.nextObject
  {
    var ix' := Moved(ix, from, to);
    var displaced := if from in ix.entries && from != to then Held(ix, to) else {};
    if from in ix.entries {
      assert forall p :: p in ix'.entries ==> Held(ix', p) == Held(ix, if p == to then from else p);
      forall o | o in Owned(ix)
        ensures o in Owned(ix') + displaced
      {
        var p :| p in ix.entries && o in Held(ix, p);
        if p == from { assert to in ix'.entries && o in Held(ix', to); }
        else if p != to { assert p in ix'.entries && o in Held(ix', p); }
      }
      forall o | o in Owned(ix')
        ensures o in Owned(ix) && o !in displaced
      {
        var p :| p in ix'.entries && o in Held(ix', p);
        var q := if p == to then from else p;
        assert q in ix.entries && o in Held(ix, q);
      }
    } else {
      assert forall p :: Content(ix', p) == Content(ix, p) && Held(ix', p) == Held(ix, p);
      assert Owned(ix') == Owned(ix);
    }
  }

  ghost predicate Injective(m: map<nat, ObjectId>) {
    forall i, j :: i in m && j in m && i != j ==> m[i] != m[j]
  }

  lemma InsertFresh(m: map<nat, ObjectId>, k: nat, o: ObjectId)
    requires Injective(m) && o !in m.Values
    ensures Injective(m[k := o])
    ensures m[k := o].Values == m.Values - (if k in m then {m[k]} else {}) + {o}
  {
    var m' := m[k := o];
    assert m'[k] == o;
    forall x | x in m.Values && !(k in m && x == m[k])
      ensures x in m'.Values
    {
      var i :| i in m && m[i] == x;
      assert i in m' && m'[i] == x;
    }
  }

  /** Recording a fresh object changes what `p` holds by exactly what is reported. */
  lemma CommitHeld(ix: Index, p: Path, attrs: FileAttributes, cs: nat, chunk: nat, obj: ObjectId)
    requires NoSharing(ix) && obj !in Held(ix, p)
    ensures var (ix', replaced) := Commit(ix, p, attrs, cs, chunk, obj);
      && replaced <= Held(ix, p)
      && Held(ix', p) == Held(ix, p) - replaced + {obj}
      && Content(ix', p).Some? && Distinct(Content(ix', p).value)
      && forall q :: q != p ==> Content(ix', q) == Content(ix, q)
  {
    var prior := Content(ix, p);
    if prior.None? || prior.value.version != VersionOf(attrs) || prior.value.chunkSize != cs {
      var fresh' := map[chunk := obj];
      assert fresh'.Values == {obj} by { assert fresh'[chunk] == obj; }
    } else {
      assert Distinct(prior.value);
      assert Injective(prior.value.chunks);
      InsertFresh(prior.value.chunks, chunk, obj);
      assert prior.value.legacy.Some? ==> prior.value.legacy.value in Held(ix, p);
    }
  }

  /** Replacing what one key holds changes what is owned by the same amount. */
  lemma OwnedAtOneKey(ix: Index, ix': Index, p: Path, gone: set<ObjectId>, added: set<ObjectId>)
    requires NoSharing(ix) && added !! Owned(ix)
    requires forall q :: q != p ==> Content(ix', q) == Content(ix, q)
    requires Content(ix', p).Some? && Distinct(Content(ix', p).value)
    requires gone <= Held(ix, p) && Held(ix', p) == Held(ix, p) - gone + added
    ensures NoSharing(ix')
    ensures Owned(ix') == Owned(ix) - gone + added
    ensures gone <= Owned(ix)
  {
    assert forall q :: q != p ==> Held(ix', q) == Held(ix, q);
    hide Held, Content, Distinct;
    HeldIsOwned(ix);
    HeldIsOwned(ix');
    assert forall q :: q != p ==> Held(ix, p) !! Held(ix, q);
  }

  /** An object is owned exactly when some key holds it, and distinct keys hold distinct objects. */
  lemma HeldIsOwned(ix: Index)
    ensures forall q, o :: o in Held(ix, q) ==> o in Owned(ix)
    ensures forall o :: o in Owned(ix) ==> exists q :: o in Held(ix, q)
    ensures NoSharing(ix) ==> forall p, q :: p != q ==> Held(ix, p) !! Held(ix, q)
    ensures NoSharing(ix) <== ((forall p :: Content(ix, p).Some? ==> Distinct(Content(ix, p).value))
                               && (forall p, q :: p != q ==> Held(ix, p) !! Held(ix, q)))
  {
    assert forall q :: q !in ix.entries ==> Held(ix, q) == {};
  }

  /** Recording a fresh object adds exactly it and drops exactly what is reported. */
  lemma CommitOwned(ix: Index, p: Path, attrs: FileAttributes, cs: nat, chunk: nat, obj: ObjectId)
    requires NoSharing(ix) && obj !in Owned(ix)
    ensures var (ix', replaced) := Commit(ix, p, attrs, cs, chunk, obj);
      && NoSharing(ix')
      && Owned(ix') == Owned(ix) - replaced + {obj}
      && replaced <= Owned(ix)
      && ix'.nextObject == ix.nextObject
  {
    var (ix', replaced) := Commit(ix, p, attrs, cs, chunk, obj);
    assert Held(ix, p) != {} ==> p in ix.entries;
    CommitHeld(ix, p, attrs, cs, chunk, obj);
    OwnedAtOneKey(ix, ix', p, replaced, {obj});
  }

  /**
   When a commit gives objects up: exactly when the entry holds objects under another version or chunk size, or the
   chunk is already recorded.
   */
  lemma CommitReplaces(ix: Index, p: Path, attrs: FileAttributes, cs: nat, chunk: nat, obj: ObjectId)
    ensures Commit(ix, p, attrs, cs, chunk, obj).1 != {} <==>
      Content(ix, p).Some? && (
        var c := Content(ix, p).value;
        if c.version != VersionOf(attrs) || c.chunkSize != cs then Objects(c) != {} else chunk in c.chunks)
  {
    if Content(ix, p).Some? && chunk in Content(ix, p).value.chunks {
      var c := Content(ix, p).value;
      assert c.chunks[chunk] in Objects(c);
    }
  }

  // ---- Directory rename ------------------------------------------------------

  /** All keys of the index are paths of the mount. */
  ghost predicate Confined(ix: Index, root: Path) {
    && (forall p :: p in ix.entries ==> Within(root, p))
    && (forall p :: p in ix.listings ==> Within(root, p))
  }

  /**
   Renaming evicts exactly the entries reachable from `from` by one or more joins, moves `from`'s own
   entry and listing to `to` when `to` is outside `from`, and leaves every other key alone, siblings
   that share the text of `from` included. Listings below `from` go with their entries: one whose directory
   has no entry stays.
   */
  lemma RenameExact(ix: Index, root: Path, from: Path, to: Path, key: Path)
    requires Confined(ix, root) && Below(root, from) && Below(root, to)
    requires Within(root, key) && from != to && !Below(from, to)
    ensures var ix' := Rename(ix, from, to).0;
      && (Below(from, key) ==> key !in ix'.entries)
      && (Below(from, key) ==> (key in ix'.listings <==> key in ix.listings && key !in ix.entries))
      && (key == from ==> key !in ix'.entries && key !in ix'.listings)
      && (key == to ==>
          && (from in ix.entries ==> key in ix'.entries && ix'.entries[key] == ix.entries[from])
          && (from in ix.listings ==> key in ix'.listings && ix'.listings[key] == ix.listings[from]))
      && (!Below(from, key) && key != from && (key != to || from !in ix.entries) ==>
          (key in ix'.entries <==> key in ix.entries) && (key in ix.entries ==> ix'.entries[key] == ix.entries[key]))
      && (!Below(from, key) && key != from && (key != to || from !in ix.listings) ==>
          (key in ix'.listings <==> key in ix.listings)
            && (key in ix.listings ==> ix'.listings[key] == ix.listings[key]))
  {
    var moved := Moved(ix, from, to);
    DescendantsByPrefix(root, from, key);
    assert key in Descendants(moved, from) <==> key in moved.entries && Below(from, key);
    assert Below(from, key) ==> key != from by {
      if Below(from, key) { BelowNotRoot(from, key); }
    }
  }
}
