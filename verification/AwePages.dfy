// Page mappings of an AWE_FS_Alloc file, and the slots that hold them.

module AwePages {
  import opened AweBlocks

  // A partial MDL that maps one page of a run into system address space.
  datatype Mdl = NoMdl | Mdl(id: nat, run: RunId, start: int)

  // PAGE_CONTEXT. The base may be stale when there is no MDL.
  datatype PageContext = PageContext(pageBase: int, mdl: Mdl)

  const EMPTY_PAGE := PageContext(0, NoMdl)

  function Owned(p: PageContext): set<nat> {
    if p.mdl.Mdl? then {p.mdl.id} else {}
  }

  // The byte array a mapping stands for is the page at its base: it refers to a
  // run that is still allocated and that holds this part of the file.
  ghost predicate Maps(p: PageContext, bs: seq<Block>, m: Memory)
    requires WellFormed(bs, m)
  {
    p.mdl.Mdl? ==>
      && 0 <= p.pageBase < Total(bs, m) && p.pageBase % PAGE == 0
      && var found := Find(bs, p.pageBase);
         found != [] && p.mdl.run == found[0].run && p.mdl.start == p.pageBase - found[0].offset
  }
}
