/** Building the menu tree while the configuration files are read. */
module MenuBuilder {
  import opened Options
  import opened Expr
  import opened MenuTree

  // ----- the last sibling of a forest -----

  function Last(f: Forest): Entry
    requires f.Cons?
  {
    if f.rest == Nil then f.head else Last(f.rest)
  }

  function LastKids(f: Forest): Forest
    requires f.Cons?
  {
    if f.rest == Nil then f.kids else LastKids(f.rest)
  }

  function Init(f: Forest): Forest
    requires f.Cons?
  {
    if f.rest == Nil then Nil else Cons(f.head, f.kids, Init(f.rest))
  }

  lemma {:induction false} InitAndLast(f: Forest)
    requires f.Cons?
    ensures f == Join(Init(f), Cons(Last(f), LastKids(f), Nil))
    ensures Last(f) in Elems(f)
  {
    if f.rest != Nil { InitAndLast(f.rest); }
  }

  lemma {:induction false} ChainSplit(first: Entry?, up: Entry?, f: Forest, end: Entry?)
    requires f.Cons? && Chain(first, up, f, end)
    ensures Chain(first, up, Init(f), Last(f))
    ensures Last(f).parent == up && Last(f).next == end && Chain(Last(f).list, Last(f), LastKids(f), null)
  {
    if f.rest != Nil { ChainSplit(f.head.next, up, f.rest, end); }
  }

  lemma DistinctSplit(f: Forest)
    requires f.Cons? && Distinct(f)
    ensures Distinct(Init(f)) && Distinct(LastKids(f)) && Last(f) !in Elems(Init(f)) && Last(f) !in Elems(LastKids(f))
    ensures Elems(f) == Elems(Init(f)) + {Last(f)} + Elems(LastKids(f)) && Elems(Init(f)) !! Elems(LastKids(f))
    ensures Preorder(f) == Preorder(Init(f)) + [Last(f)] + Preorder(LastKids(f))
  {
    InitAndLast(f);
    var one := Cons(Last(f), LastKids(f), Nil);
    JoinSets(Init(f), one);
    JoinDistinct(Init(f), one);
    JoinOrder(Init(f), one);
    assert Preorder(one) == [Last(f)] + Preorder(LastKids(f));
  }

  // ----- the menus that are still open -----

  /** An open menu with the children it has so far, up to the next open menu. */
  datatype Frame = Frame(menu: Entry, done: Forest)

  function Entries(path: seq<Frame>): set<Entry> {
    if path == [] then {} else Entries(path[..|path| - 1]) + {path[|path| - 1].menu} + Elems(path[|path| - 1].done)
  }

  lemma {:induction false} FrameEntries(path: seq<Frame>, i: nat)
    requires i < |path|
    ensures path[i].menu in Entries(path) && Elems(path[i].done) <= Entries(path)
  {
    if i < |path| - 1 { FrameEntries(path[..|path| - 1], i); }
  }

  lemma AllFrameEntries(path: seq<Frame>)
    ensures forall i :: 0 <= i < |path| ==> path[i].menu in Entries(path) && Elems(path[i].done) <= Entries(path)
  {
    forall i | 0 <= i < |path| ensures path[i].menu in Entries(path) && Elems(path[i].done) <= Entries(path) {
      FrameEntries(path, i);
    }
  }

  /** The menu that stands behind the children of frame i: the next open one, if any. */
  function End(path: seq<Frame>, i: nat): Entry?
    requires i < |path|
  {
    if i + 1 < |path| then path[i + 1].menu else null
  }

  /** No entry occurs twice, neither within a frame nor in two of them. */
  predicate Separate(path: seq<Frame>) {
    && (forall i :: 0 <= i < |path| ==> Distinct(path[i].done))
    && (forall i, j :: 0 <= i < |path| && 0 <= j < |path| ==> path[i].menu !in Elems(path[j].done))
    && (forall i, j :: 0 <= i < j < |path| ==>
          path[i].menu != path[j].menu && Elems(path[i].done) !! Elems(path[j].done))
  }

  /** The entries read so far, in the order of reading. */
  function Reading(path: seq<Frame>): seq<Entry>
    requires path != []
  {
    var f := path[|path| - 1];
    if |path| == 1 then Preorder(f.done) else Reading(path[..|path| - 1]) + [f.menu] + Preorder(f.done)
  }

  function EndSet(path: seq<Frame>, i: nat): set<Entry>
    requires i < |path|
  {
    if i + 1 < |path| then {path[i + 1].menu} else {}
  }

  /** The children of frame i are chained up to the next open menu, which is not finished yet. */
  ghost predicate FrameLinked(path: seq<Frame>, i: nat)
    requires i < |path|
    reads {path[i].menu}`list, Elems(path[i].done)`next, Elems(path[i].done)`parent, Elems(path[i].done)`list
    reads EndSet(path, i)`parent, EndSet(path, i)`next
  {
    && Chain(path[i].menu.list, path[i].menu, path[i].done, End(path, i))
    && (i + 1 < |path| ==> path[i + 1].menu.parent == path[i].menu && path[i + 1].menu.next == null)
  }

  /** The pointers describe the open menus and all that is finished below them. */
  ghost predicate Linked(path: seq<Frame>)
    reads Entries(path)`list, Entries(path)`next, Entries(path)`parent
  {
    forall i :: 0 <= i < |path| ==>
      (FrameEntries(path, i);
       if i + 1 < |path| then FrameEntries(path, i + 1); FrameLinked(path, i) else FrameLinked(path, i))
  }

  lemma OneChain(menu: Entry, up: Entry)
    requires menu.parent == up && menu.next == null && menu.list == null
    ensures Chain(menu, up, Cons(menu, Nil, Nil), null)
  {
    assert Chain(menu.next, up, Nil, null) && Chain(menu.list, menu, Nil, null);
  }

  /** Appending to the chain of an open menu, through the pointer to where it ends. */
  method Append(up: Entry, ghost done: Forest, menu: Entry, owner: Entry, inList: bool)
    requires Chain(up.list, up, done, null) && Distinct(done) && up !in Elems(done)
    requires if done == Nil then owner == up && inList else owner == Last(done) && !inList
    requires menu != up && menu !in Elems(done) && menu.parent == up && menu.next == null && menu.list == null
    modifies {owner}`list, {owner}`next
    ensures Chain(up.list, up, Join(done, Cons(menu, Nil, Nil)), null)
    ensures owner == up ==> up.next == old(up.next)
  {
    if done != Nil {
      ChainSplit(up.list, up, done, null);
      DistinctSplit(done);
      InitAndLast(done);
    }
    if inList { owner.list := menu; } else { owner.next := menu; }
    if done != Nil {
      ChainExtend(up.list, up, Init(done), owner, LastKids(done));
      InitAndLast(done);
    }
    OneChain(menu, up);
    ChainJoin(up.list, up, done, menu, Cons(menu, Nil, Nil), null);
  }

  /** The owner of the end belongs to no outer frame. */
  predicate OwnerApart(path: seq<Frame>, owner: Entry, i: nat)
    requires i < |path| - 1
  {
    && owner != path[i].menu && owner !in Elems(path[i].done)
    && (owner == path[i + 1].menu ==> i + 1 == |path| - 1)
  }

  lemma OwnerIsInner(path: seq<Frame>, owner: Entry, inList: bool, i: nat)
    requires path != [] && Separate(path) && PointsAtEnd(path[|path| - 1], owner, inList) && i < |path| - 1
    ensures OwnerApart(path, owner, i)
  {
    var k := |path| - 1;
    if path[k].done != Nil { InitAndLast(path[k].done); }
  }

  lemma OwnerIsNotNew(f: Frame, owner: Entry, inList: bool, menu: Entry)
    requires PointsAtEnd(f, owner, inList) && menu != f.menu && menu !in Elems(f.done)
    ensures owner != menu
  {
    if f.done != Nil { InitAndLast(f.done); }
  }

  lemma {:induction false} EntriesAllocated(path: seq<Frame>)
    ensures forall m :: m in Entries(path) ==> allocated(m)
  {
    if path != [] {
      EntriesAllocated(path[..|path| - 1]);
      ElemsAllocated(path[|path| - 1].done);
    }
  }

  lemma LinkedFrame(path: seq<Frame>, i: nat)
    requires Linked(path) && i < |path|
    ensures FrameLinked(path, i)
  {
  }

  lemma LinkedByFrames(path: seq<Frame>)
    requires forall i :: 0 <= i < |path| ==> FrameLinked(path, i)
    ensures Linked(path)
  {
  }

  /** Everything stays linked when an entry is appended at the end. */
  method Insert(ghost path: seq<Frame>, up: Entry, menu: Entry, owner: Entry, inList: bool)
    requires path != [] && Linked(path) && Separate(path) && PointsAtEnd(path[|path| - 1], owner, inList)
    requires up == path[|path| - 1].menu && menu.parent == up && menu.next == null && menu.list == null
    requires forall i :: 0 <= i < |path| ==> menu != path[i].menu && menu !in Elems(path[i].done)
    modifies {owner}`list, {owner}`next
    ensures Linked(Grown(path, menu))
    ensures path[0].menu.next == old(path[0].menu.next) && menu.list == null && menu.next == null
  {
    hide Linked, Separate, Distinct;
    ghost var k := |path| - 1;
    LinkedFrame(path, k);
    assert Distinct(path[k].done) && up !in Elems(path[k].done) by { SeparateFrame(path, k); }
    forall i | 0 <= i < k ensures FrameLinked(path, i) {
      LinkedFrame(path, i);
    }
    forall i | 0 <= i < k ensures OwnerApart(path, owner, i) {
      OwnerIsInner(path, owner, inList, i);
    }
    OwnerIsNotNew(path[k], owner, inList, menu);
    assert k > 0 ==> OwnerApart(path, owner, 0);
    forall i | 0 <= i < k ensures forall m :: m in Elems(path[i].done) ==> allocated(m) {
      ElemsAllocated(path[i].done);
    }
    Append(up, path[k].done, menu, owner, inList);
    ghost var grown := Grown(path, menu);
    assert FrameLinked(grown, k);
    forall i | 0 <= i < k ensures FrameLinked(grown, i) {
      assert OwnerApart(path, owner, i);
      assert grown[i] == path[i] && grown[i + 1].menu == path[i + 1].menu;
      assert old(FrameLinked(path, i));
      assert path[i].menu.list == old(path[i].menu.list);
      assert Chain(path[i].menu.list, path[i].menu, path[i].done, End(path, i));
    }
    LinkedByFrames(grown);
  }

  lemma SeparateFrame(path: seq<Frame>, k: nat)
    requires Separate(path) && k < |path|
    ensures Distinct(path[k].done) && path[k].menu !in Elems(path[k].done)
  {
  }

  class Builder {
    const root: Entry
    var currentEntry: Entry
    var currentMenu: Entry
    var owner: Entry                 // last_entry_ptr is &owner->list
    var inList: bool                 // or &owner->next
    ghost var path: seq<Frame>
    ghost var read: seq<Entry>

    ghost predicate Valid()
      reads this, root, Entries(path)
    {
      && path != [] && path[0].menu == root && root.parent == null && root.next == null
      && Linked(path) && Separate(path) && Reading(path) == read
      && currentMenu == path[|path| - 1].menu
      && PointsAtEnd(path[|path| - 1], owner, inList)
    }

    /** menu_init. */
    constructor (rootmenu: Entry)
      requires rootmenu.parent == null && rootmenu.next == null && rootmenu.list == null
      ensures Valid() && root == rootmenu && read == [] && path == [Frame(rootmenu, Nil)]
    {
      root, currentEntry, currentMenu := rootmenu, rootmenu, rootmenu;
      owner, inList := rootmenu, true;
      path, read := [Frame(rootmenu, Nil)], [];
    }

    /** menu_add_entry. */
    method AddEntry(sym: Option<Symbol>, isChoice: bool)
      requires Valid()
      modifies this, {owner}`list, {owner}`next
      ensures Valid() && fresh(currentEntry) && currentEntry.sym == sym
      ensures read == old(read) + [currentEntry]
      ensures path == Grown(old(path), currentEntry)
      ensures currentEntry.list == null
    {
      hide Linked, Separate, Reading, Distinct, Chain, Grown, Elems, Entries, PointsAtEnd;
      EntriesAllocated(path);
      AllFrameEntries(path);
      var menu := new Entry(sym, isChoice, currentMenu);
      Insert(path, currentMenu, menu, owner, inList);
      GrownReads(path, menu);
      GrownSeparate(path, menu);
      GrownMenus(path, menu);
      path, read := Grown(path, menu), read + [menu];
      currentEntry, owner, inList := menu, menu, false;
      GrownEnd(old(path), menu);
    }

    /** menu_add_menu: the entry that was added last takes the next ones as its children. */
    method AddMenu()
      requires Valid() && owner == currentEntry && !inList && currentEntry.list == null
      modifies this
      ensures Valid() && read == old(read) && currentMenu == currentEntry == old(currentEntry)
      ensures |path| == |old(path)| + 1
    {
      owner, inList := currentEntry, true;
      currentMenu := currentEntry;
      OpenedFrames(path);
      path := Opened(path);
    }

    /** menu_end_menu. */
    method EndMenu()
      requires Valid() && |path| > 1
      modifies this
      ensures Valid() && read == old(read) && currentMenu == old(currentMenu.parent)
      ensures |path| == |old(path)| - 1
    {
      hide Linked, Separate, Reading, PointsAtEnd;
      ClosedFrames(path);
      assert currentMenu.parent == path[|path| - 2].menu by { LinkedFrame(path, |path| - 2); }
      owner, inList := currentMenu, false;
      currentMenu := currentMenu.parent;
      path := Closed(path);
    }
  }

  lemma GrownEnd(path: seq<Frame>, menu: Entry)
    requires path != []
    ensures PointsAtEnd(Grown(path, menu)[|path| - 1], menu, false)
  {
    LastOfJoin(path[|path| - 1].done, Cons(menu, Nil, Nil));
  }

  lemma {:induction false} LastOfJoin(f: Forest, h: Forest)
    requires h.Cons?
    ensures Join(f, h).Cons? && Last(Join(f, h)) == Last(h)
  {
    if f.Cons? { LastOfJoin(f.rest, h); }
  }

  /** The last child of the innermost menu becomes an open menu itself. */
  function Opened(path: seq<Frame>): seq<Frame>
    requires path != [] && path[|path| - 1].done.Cons?
  {
    var k := |path| - 1;
    path[..k] + [Frame(path[k].menu, Init(path[k].done)), Frame(Last(path[k].done), Nil)]
  }

  lemma OpenedFrames(path: seq<Frame>)
    requires path != [] && Linked(path) && Separate(path)
    requires path[|path| - 1].done.Cons? && Last(path[|path| - 1].done).list == null
    ensures Linked(Opened(path)) && Separate(Opened(path)) && Reading(Opened(path)) == Reading(path)
  {
    var k := |path| - 1;
    var done := path[k].done;
    LinkedFrame(path, k);
    SeparateFrame(path, k);
    ChainSplit(path[k].menu.list, path[k].menu, done, null);
    DistinctSplit(done);
    NoKids(Last(done), LastKids(done));
    hide Linked, Separate, Reading, Chain, Distinct, Init, Last, LastKids;
    OpenedLinked(path);
    OpenedSeparate(path);
    OpenedReading(path);
  }

  lemma OpenedLinked(path: seq<Frame>)
    requires path != [] && Linked(path) && path[|path| - 1].done.Cons?
    requires var m, done := path[|path| - 1].menu, path[|path| - 1].done;
      && Chain(m.list, m, Init(done), Last(done))
      && Last(done).parent == m && Last(done).next == null && Last(done).list == null
    ensures Linked(Opened(path))
  {
    hide Linked;
    var longer := Opened(path);
    forall i | 0 <= i < |longer| ensures FrameLinked(longer, i) {
      if i < |path| - 1 { LinkedFrame(path, i); }
    }
    LinkedByFrames(longer);
  }

  lemma OpenedSeparate(path: seq<Frame>)
    requires path != [] && Separate(path) && path[|path| - 1].done.Cons?
    requires LastKids(path[|path| - 1].done) == Nil
    requires var done := path[|path| - 1].done;
      && Distinct(Init(done)) && Last(done) !in Elems(Init(done))
      && Elems(done) == Elems(Init(done)) + {Last(done)} + Elems(Nil)
    ensures Separate(Opened(path))
  {
    hide Init, Last, LastKids, Distinct;
    assert Distinct(Nil) && Elems(Nil) == {} by { EmptyForest(); }
  }

  lemma EmptyForest()
    ensures Distinct(Nil) && Elems(Nil) == {}
  {
  }

  lemma OpenedReading(path: seq<Frame>)
    requires path != [] && path[|path| - 1].done.Cons?
    requires var done := path[|path| - 1].done;
      LastKids(done) == Nil && Preorder(done) == Preorder(Init(done)) + [Last(done)] + Preorder(LastKids(done))
    ensures Reading(Opened(path)) == Reading(path)
  {
    hide Reading, Init, Last, Preorder;
    var k := |path| - 1;
    var longer := Opened(path);
    assert Preorder(Nil) == [] by { EmptyReading(); }
    assert longer[..k + 1] == path[..k] + [longer[k]] && (path[..k] + [longer[k]])[..k] == path[..k];
    ReadingLast(path);
    ReadingLast(longer);
    ReadingLast(longer[..k + 1]);
  }

  lemma EmptyReading()
    ensures Preorder(Nil) == []
  {
  }

  /** What was read before the children of a frame: its menu comes last. */
  function Lead(path: seq<Frame>, menu: Entry): seq<Entry> {
    if path == [] then [] else Reading(path) + [menu]
  }

  lemma ReadingLast(path: seq<Frame>)
    requires path != []
    ensures Reading(path) == Lead(path[..|path| - 1], path[|path| - 1].menu) + Preorder(path[|path| - 1].done)
  {
  }

  lemma NoKids(m: Entry, kids: Forest)
    requires Chain(m.list, m, kids, null) && m.list == null
    ensures kids == Nil
  {
  }

  /** The innermost menu becomes the last child of the one around it. */
  function Closed(path: seq<Frame>): seq<Frame>
    requires |path| > 1
  {
    var k := |path| - 1;
    path[..k - 1] + [Frame(path[k - 1].menu, Join(path[k - 1].done, Cons(path[k].menu, path[k].done, Nil)))]
  }

  lemma ClosedFrames(path: seq<Frame>)
    requires |path| > 1 && Linked(path) && Separate(path)
    ensures Linked(Closed(path)) && Separate(Closed(path)) && Reading(Closed(path)) == Reading(path)
    ensures PointsAtEnd(Closed(path)[|path| - 2], path[|path| - 1].menu, false)
  {
    var k := |path| - 1;
    LastOfJoin(path[k - 1].done, Cons(path[k].menu, path[k].done, Nil));
    hide Linked, Separate, Reading;
    ClosedLinked(path);
    ClosedSeparate(path);
    ClosedReading(path);
  }

  lemma ClosedLinked(path: seq<Frame>)
    requires |path| > 1 && Linked(path)
    ensures Linked(Closed(path))
  {
    hide Linked;
    var k := |path| - 1;
    var closed := Closed(path);
    LinkedFrame(path, k);
    LinkedFrame(path, k - 1);
    ChainExtend(path[k - 1].menu.list, path[k - 1].menu, path[k - 1].done, path[k].menu, path[k].done);
    hide Chain, Join;
    forall i | 0 <= i < |closed| ensures FrameLinked(closed, i) {
      if i < k - 1 { LinkedFrame(path, i); }
    }
    LinkedByFrames(closed);
  }

  lemma ClosedSeparate(path: seq<Frame>)
    requires |path| > 1 && Separate(path)
    ensures Separate(Closed(path))
  {
    var k := |path| - 1;
    var one := Cons(path[k].menu, path[k].done, Nil);
    JoinSets(path[k - 1].done, one);
    JoinDistinct(path[k - 1].done, one);
    OneTree(path[k].menu, path[k].done);
    hide Join, Distinct, Elems;
  }

  lemma OneTree(m: Entry, kids: Forest)
    requires m !in Elems(kids) && Distinct(kids)
    ensures var one := Cons(m, kids, Nil);
      Distinct(one) && Elems(one) == {m} + Elems(kids)
  {
  }

  lemma OneReading(m: Entry, kids: Forest)
    ensures Preorder(Cons(m, kids, Nil)) == [m] + Preorder(kids)
  {
  }

  lemma ClosedReading(path: seq<Frame>)
    requires |path| > 1
    ensures Reading(Closed(path)) == Reading(path)
  {
    hide Reading, Preorder, Join;
    var k := |path| - 1;
    var closed := Closed(path);
    var one := Cons(path[k].menu, path[k].done, Nil);
    JoinOrder(path[k - 1].done, one);
    OneReading(path[k].menu, path[k].done);
    assert closed[..k - 1] == path[..k - 1] == path[..k][..k - 1];
    ReadingLast(path);
    ReadingLast(path[..k]);
    ReadingLast(closed);
  }

  /** When all menus are closed, the pointers are a forest of the entries in the order of reading. */
  lemma AllClosed(b: Builder)
    requires b.Valid() && |b.path| == 1
    ensures Chain(b.root.list, b.root, b.path[0].done, null) && Distinct(Cons(b.root, b.path[0].done, Nil))
    ensures Preorder(b.path[0].done) == b.read
  {
    LinkedFrame(b.path, 0);
  }

  predicate PointsAtEnd(f: Frame, owner: Entry, inList: bool) {
    if f.done == Nil then owner == f.menu && inList else owner == Last(f.done) && !inList
  }

  /** The innermost open menu with one more child. */
  function Grown(path: seq<Frame>, menu: Entry): seq<Frame>
    requires path != []
  {
    var k := |path| - 1;
    path[..k] + [Frame(path[k].menu, Join(path[k].done, Cons(menu, Nil, Nil)))]
  }

  lemma GrownMenus(path: seq<Frame>, menu: Entry)
    requires path != []
    ensures |Grown(path, menu)| == |path| && forall i :: 0 <= i < |path| ==> Grown(path, menu)[i].menu == path[i].menu
  {
  }

  lemma GrownReads(path: seq<Frame>, menu: Entry)
    requires path != []
    ensures Reading(Grown(path, menu)) == Reading(path) + [menu]
  {
    var k := |path| - 1;
    JoinOrder(path[k].done, Cons(menu, Nil, Nil));
    assert Preorder(Cons(menu, Nil, Nil)) == [menu];
    assert Grown(path, menu)[..k] == path[..k];
  }

  lemma GrownSeparate(path: seq<Frame>, menu: Entry)
    requires path != [] && Separate(path)
    requires forall i :: 0 <= i < |path| ==> menu != path[i].menu && menu !in Elems(path[i].done)
    ensures Separate(Grown(path, menu))
  {
    var k := |path| - 1;
    var one := Cons(menu, Nil, Nil);
    JoinSets(path[k].done, one);
    JoinDistinct(path[k].done, one);
    assert Elems(one) == {menu};
  }
}
