/** Reading, finalizing and walking the menu, one after the other. */
module MenuRun {
  import opened Options
  import opened MenuTree
  import opened MenuBuilder
  import opened MenuFinalize

  /** The entries are written in the order in which they were read, each of them once, whatever menu_finalize
      has rearranged in between. */
  method FinalizeAndWrite(b: Builder) returns (written: seq<Entry>)
    requires b.Valid() && |b.path| == 1 && b.root.sym.None?
    modifies {b.root} + Elems(b.path[0].done)
    ensures written == old(b.read) && NoRepeats(written)
  {
    hide Builder.Valid;
    assert b.root.parent == null && b.root.next == null by { RootIsTop(b); }
    AllClosed(b);
    ghost var all := Elems(b.path[0].done);
    ghost var tree;
    written, tree := FinalizeAndWalk(b.root, b.path[0].done, all);
  }

  lemma RootIsTop(b: Builder)
    requires b.Valid()
    ensures b.root.parent == null && b.root.next == null
  {
  }
}
