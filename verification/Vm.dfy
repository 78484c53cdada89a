/**
  Page tables and address spaces (vm.c, kalloc.c): two-level paging over frames
  of physical memory, and what every function gives back when memory runs out.
 */
module Vm {
  import opened FsBytes
  import opened Frames
  import opened Results

  const PGSIZE := 4096
  const KERNBASE := 0x8000_0000
  const EXTMEM := 0x100       // in pages, as the next two
  const PHYSTOP := 0xE000
  const DEVSPACE := 0xFE000
  // Flags beside PTE_P, which a present entry has.
  const PTE_W := 2
  const PTE_U := 4

  function ZeroPage(): (s: Bytes) {
    seq(PGSIZE, i => 0)
  }

  ghost predicate SameHeld(m: Machine, w: Machine) {
    && w.owner.Keys == m.owner.Keys
    && forall f :: f in m.owner ==> (w.owner[f] == Held <==> m.owner[f] == Held)
                                    && (m.owner[f] == Held ==> f in m.mem && f in w.mem && w.mem[f] == m.mem[f])
  }

  // Nothing that anybody sees has changed; directory d may have got a page table.
  ghost predicate Quiet(m: Machine, w: Machine, d: nat) {
    && Apart(m, w, d) && SameHeld(m, w) && w.dirs == m.dirs && Shows(m, w, d, USER)
    && forall u: nat :: u < PAGES ==> Pte(w.mem, d, u) == Pte(m.mem, d, u)
  }

  lemma QuietSelf(m: Machine, d: nat)
    requires Inv(m)
    ensures Quiet(m, m, d)
  {
    ApartSelf(m, d);
  }

  lemma QuietTable(m: Machine, d: nat, x: nat, flags: nat)
    requires Inv(m) && d in m.dirs && x < ENTRIES && |m.free| > 0 && Slot(m.mem, d, x).Absent?
    ensures Inv(Popped(m)) && d in Popped(m).mem && Popped(m).mem[d].Table? && d != m.free[|m.free| - 1]
    ensures Inv(NewTable(Popped(m), d, x, m.free[|m.free| - 1], flags))
    ensures Quiet(m, NewTable(Popped(m), d, x, m.free[|m.free| - 1], flags), d)
  {
    var u, t := Popped(m), m.free[|m.free| - 1];
    assert ListOk(m, |m.free| - 1);
    PoppedInv(m);
    PoppedApart(m, d);
    hide Slot, Pte, Inv, Sees;
    NewTableInv(u, d, x, t, flags);
    NewTableApart(u, d, x, t, flags);
    NewTableShows(u, d, x, t, flags);
    var w := NewTable(u, d, x, t, flags);
    ApartTrans(m, u, w, d);
    forall v: nat | v < PAGES
      ensures Pte(w.mem, d, v) == Pte(m.mem, d, v)
    {
      NewTablePte(u, d, x, t, flags, d, v);
    }
  }

  // Page v of directory d has been mapped to e, whose frame was held if v is a user page.
  ghost predicate Maps(m: Machine, w: Machine, d: nat, v: nat, e: Entry) {
    && v < PAGES && Apart(m, w, d) && w.dirs == m.dirs && Shows(m, w, d, v)
    && Pte(m.mem, d, v).Absent? && Pte(w.mem, d, v) == e && e.Present?
    && (forall u: nat :: u < PAGES && u != v ==> Pte(w.mem, d, u) == Pte(m.mem, d, u))
    && (forall f :: f in m.owner ==> (w.owner[f] == Held <==> m.owner[f] == Held && !(v < USER && f == e.frame)))
    && (forall f :: f in m.owner && m.owner[f] == Held ==> f in m.mem && f in w.mem && w.mem[f] == m.mem[f])
  }

  lemma QuietHeld(m: Machine, w: Machine, d: nat, f: nat)
    requires Quiet(m, w, d) && f in m.owner && m.owner[f] == Held
    ensures f in w.owner && w.owner[f] == Held && f in m.mem && f in w.mem && w.mem[f] == m.mem[f]
  {
  }

  lemma QuietPte(m: Machine, w: Machine, d: nat, v: nat)
    requires Quiet(m, w, d) && v < PAGES
    ensures Pte(w.mem, d, v) == Pte(m.mem, d, v) && w.dirs == m.dirs
  {
    hide Pte;
  }

  lemma MapsPtes(m: Machine, u: Machine, d: nat, v: nat, e: Entry)
    requires Inv(u) && Quiet(m, u, d) && d in u.dirs && v < PAGES && Tabled(u, d, v) && e.Present?
    ensures TableOf(u, d, v) in u.mem && u.mem[TableOf(u, d, v)].Table?
    ensures var w := NewEntry(u, d, v, e, e.frame, User(d, v));
            forall c: nat :: c < PAGES ==> Pte(w.mem, d, c) == if c == v then e else Pte(m.mem, d, c)
  {
    TableThere(u, d, v);
    hide Inv, Slot, Pte, Apart, Shows, SameHeld;
    forall c: nat | c < PAGES
      ensures Pte(NewEntry(u, d, v, e, e.frame, User(d, v)).mem, d, c) == if c == v then e else Pte(m.mem, d, c)
    {
      NewEntryPte(u, d, v, e, e.frame, User(d, v), d, c);
    }
  }

  lemma ShowsTrans(m: Machine, u: Machine, w: Machine, d: nat, v: nat)
    requires Shows(m, u, d, USER) && Shows(u, w, d, v)
    ensures Shows(m, w, d, v)
  {
    hide Sees;
  }

  lemma MapsNext(m: Machine, u: Machine, d: nat, v: nat, e: Entry)
    requires Inv(u) && Quiet(m, u, d) && d in u.dirs && v < PAGES && Tabled(u, d, v) && e.Present?
    requires Pte(u.mem, d, v).Absent?
    requires v < USER ==> e.frame in m.owner && m.owner[e.frame] == Held && e.frame in m.mem && m.mem[e.frame].Data?
    ensures TableOf(u, d, v) in u.mem && u.mem[TableOf(u, d, v)].Table?
    ensures var w := NewEntry(u, d, v, e, e.frame, User(d, v)); Inv(w) && Maps(m, w, d, v, e)
  {
    hide Slot, Pte, Sees, TableOf, Tabled;
    if v < USER {
      QuietHeld(m, u, d, e.frame);
    }
    MapInv(u, d, v, e);
    TableThere(u, d, v);
    NewEntryApart(u, d, v, e, e.frame, User(d, v));
    NewEntryShows(u, d, v, e, e.frame, User(d, v));
    MapsPtes(m, u, d, v, e);
    var w := NewEntry(u, d, v, e, e.frame, User(d, v));
    ApartTrans(m, u, w, d);
    ShowsTrans(m, u, w, d, v);
    hide Inv, Apart, Shows;
  }

  // The entry of a page, read from its table.
  lemma PteInTable(m: Machine, d: nat, v: nat)
    requires Inv(m) && d in m.dirs && v < PAGES && Tabled(m, d, v)
    ensures TableOf(m, d, v) in m.mem && m.mem[TableOf(m, d, v)].Table?
    ensures m.mem[TableOf(m, d, v)].entries[v % ENTRIES] == Pte(m.mem, d, v)
  {
    TableThere(m, d, v);
  }

  // PGROUNDUP(size) / PGSIZE
  function Pages(size: nat): (n: nat) {
    (size + PGSIZE - 1) / PGSIZE
  }

  // User pages lo to hi of directory d show what they show in w, all others what they showed in m.
  ghost predicate Within(m: Machine, w: Machine, d: nat, lo: nat, hi: nat) {
    && Apart(m, w, d) && SameHeld(m, w) && w.dirs == m.dirs
    && (forall u: nat :: u < USER && !(lo <= u < hi) ==> Sees(w.mem, d, u) == Sees(m.mem, d, u))
    && forall u: nat :: USER <= u < PAGES ==> Pte(w.mem, d, u) == Pte(m.mem, d, u)
  }

  // User pages lo to hi of directory d are gone.
  ghost predicate Cleared(m: Machine, w: Machine, d: nat, lo: nat, hi: nat) {
    Within(m, w, d, lo, hi) && forall u: nat :: lo <= u < hi && u < USER ==> Sees(w.mem, d, u) == Nothing
  }

  lemma WithinSelf(m: Machine, d: nat, lo: nat, hi: nat)
    requires Inv(m)
    ensures Within(m, m, d, lo, hi)
  {
    ApartSelf(m, d);
  }

  lemma WithinTrans(m: Machine, u: Machine, w: Machine, d: nat, lo: nat, hi: nat)
    requires Within(m, u, d, lo, hi) && Within(u, w, d, lo, hi)
    ensures Within(m, w, d, lo, hi)
  {
    ApartTrans(m, u, w, d);
    hide Sees, Pte, Apart;
  }

  lemma WithinWider(m: Machine, w: Machine, d: nat, lo: nat, hi: nat, lo': nat, hi': nat)
    requires Within(m, w, d, lo, hi) && lo' <= lo && hi <= hi'
    ensures Within(m, w, d, lo', hi')
  {
    hide Sees, Pte, Apart;
  }

  lemma SameHeldTrans(m: Machine, u: Machine, w: Machine)
    requires SameHeld(m, u) && SameHeld(u, w)
    ensures SameHeld(m, w)
  {
  }

  // The image after a user page has been unmapped and its frame freed.
  function Dropped(m: Machine, d: nat, v: nat): (w: Machine)
    requires v < USER && TableOf(m, d, v) in m.mem && m.mem[TableOf(m, d, v)].Table? && Pte(m.mem, d, v).Present?
  {
    var f := Pte(m.mem, d, v).frame;
    Pushed(NewEntry(m, d, v, Absent, f, Held), f)
  }

  lemma DroppedApart(m: Machine, d: nat, v: nat)
    requires Inv(m) && d in m.dirs && v < USER && Pte(m.mem, d, v).Present?
    ensures TableOf(m, d, v) in m.mem && m.mem[TableOf(m, d, v)].Table?
    ensures Inv(Dropped(m, d, v)) && Apart(m, Dropped(m, d, v), d) && SameHeld(m, Dropped(m, d, v))
  {
    UnmapInv(m, d, v);
    TableThere(m, d, v);
    var f := Pte(m.mem, d, v).frame;
    NewEntryApart(m, d, v, Absent, f, Held);
    var u := NewEntry(m, d, v, Absent, f, Held);
    hide Pte, Slot;
    PushedInv(u, f);
    PushedApart(u, f, d);
    ApartTrans(m, u, Pushed(u, f), d);
  }

  lemma DroppedPte(m: Machine, d: nat, v: nat, c: nat)
    requires Inv(m) && d in m.dirs && v < USER && Pte(m.mem, d, v).Present? && c < PAGES
    ensures TableOf(m, d, v) in m.mem && m.mem[TableOf(m, d, v)].Table?
    ensures Pte(Dropped(m, d, v).mem, d, c) == if c == v then Absent else Pte(m.mem, d, c)
  {
    UnmapInv(m, d, v);
    TableThere(m, d, v);
    var f := Pte(m.mem, d, v).frame;
    NewEntryPte(m, d, v, Absent, f, Held, d, c);
    var u := NewEntry(m, d, v, Absent, f, Held);
    hide Pte, Slot;
    HeldPte(u, f, Junk, d, c);
  }

  lemma DroppedCleared(m: Machine, d: nat, v: nat)
    requires Inv(m) && d in m.dirs && v < USER && Pte(m.mem, d, v).Present?
    ensures TableOf(m, d, v) in m.mem && m.mem[TableOf(m, d, v)].Table?
    ensures Cleared(m, Dropped(m, d, v), d, v, v + 1)
  {
    UnmapInv(m, d, v);
    DroppedApart(m, d, v);
    var f := Pte(m.mem, d, v).frame;
    NewEntryShows(m, d, v, Absent, f, Held);
    var u := NewEntry(m, d, v, Absent, f, Held);
    hide Pte, Slot, Inv;
    PushedShows(u, f, d);
    var w := Dropped(m, d, v);
    forall c: nat | USER <= c < PAGES
      ensures Pte(w.mem, d, c) == Pte(m.mem, d, c)
    {
      DroppedPte(m, d, v, c);
    }
    DroppedPte(m, d, v, v);
  }

  lemma DropFacts(m: Machine, d: nat, v: nat)
    requires Inv(m) && d in m.dirs && v < USER && Pte(m.mem, d, v).Present?
    ensures TableOf(m, d, v) in m.mem && m.mem[TableOf(m, d, v)].Table?
    ensures var f := Pte(m.mem, d, v).frame;
            var u := NewEntry(m, d, v, Absent, f, Held);
            Inv(u) && f in u.owner && u.owner[f] == Held && Cleared(m, Pushed(u, f), d, v, v + 1)
  {
    UnmapInv(m, d, v);
    DroppedCleared(m, d, v);
  }

  lemma ClearedNext(m: Machine, u: Machine, w: Machine, d: nat, lo: nat, v: nat, v': nat)
    requires Cleared(m, u, d, lo, v) && Cleared(u, w, d, v, v') && lo <= v <= v'
    ensures Cleared(m, w, d, lo, v')
  {
    WithinWider(m, u, d, lo, v, lo, v');
    WithinWider(u, w, d, v, v', lo, v');
    WithinTrans(m, u, w, d, lo, v');
    hide Sees, Pte, Apart, SameHeld;
  }

  // Pages that were not there need not be cleared.
  lemma ClearedNothing(m: Machine, d: nat, lo: nat, hi: nat)
    requires Inv(m) && forall u: nat :: lo <= u < hi && u < USER ==> Sees(m.mem, d, u) == Nothing
    ensures Cleared(m, m, d, lo, hi)
  {
    WithinSelf(m, d, lo, hi);
    hide Sees, Within;
  }

  // A page without a page table is not there, and neither are the others of that table.
  lemma UntabledNothing(m: Machine, d: nat, v: nat)
    requires v < PAGES && !Tabled(m, d, v)
    ensures forall u: nat :: v <= u < (v / ENTRIES + 1) * ENTRIES && u < USER ==> Sees(m.mem, d, u) == Nothing
  {
    forall u: nat | v <= u < (v / ENTRIES + 1) * ENTRIES && u < USER
      ensures Sees(m.mem, d, u) == Nothing
    {
      assert u / ENTRIES == v / ENTRIES;
    }
  }

  lemma ClearedHeld(m: Machine, w: Machine, d: nat, lo: nat, hi: nat, f: nat)
    requires Cleared(m, w, d, lo, hi) && f in m.owner && m.owner[f] == Held
    ensures f in w.owner && w.owner[f] == Held
  {
    hide Sees, Pte;
  }

  lemma ClearedDirs(m: Machine, w: Machine, d: nat, lo: nat, hi: nat)
    requires Cleared(m, w, d, lo, hi)
    ensures w.dirs == m.dirs
  {
  }

  lemma PagesMonotone(a: nat, b: nat)
    requires a <= b
    ensures Pages(a) <= Pages(b)
  {
  }

  lemma PagesBound(size: nat)
    requires size <= KERNBASE
    ensures Pages(size) <= USER
  {
  }

  lemma PagesAbove(size: nat, v: nat)
    requires v * PGSIZE < size
    ensures v < Pages(size)
  {
  }

  lemma PagesAtMost(size: nat, v: nat)
    requires v * PGSIZE >= size
    ensures v >= Pages(size)
  {
  }

  function Minimum(a: nat, b: nat): (r: nat) {
    if a < b then a else b
  }

  // A frame has been taken from the free list and filled.
  function Taken(m: Machine, content: Frame): (w: Machine)
    requires |m.free| > 0
  {
    Written(Popped(m), m.free[|m.free| - 1], content)
  }

  // Like Within with no page touched, but the frame f is held now.
  ghost predicate Holding(m: Machine, w: Machine, d: nat, f: nat) {
    && Apart(m, w, d) && w.dirs == m.dirs && Shows(m, w, d, USER)
    && (forall u: nat :: u < PAGES ==> Pte(w.mem, d, u) == Pte(m.mem, d, u))
    && f in m.owner && m.owner[f] != Held
    && forall g :: g in m.owner ==> (w.owner[g] == Held <==> m.owner[g] == Held || g == f)
                                    && (m.owner[g] == Held ==> g in m.mem && g in w.mem && w.mem[g] == m.mem[g])
  }

  lemma TakenHolding(m: Machine, content: Frame, d: nat)
    requires Inv(m) && |m.free| > 0 && d in m.dirs
    ensures var f := m.free[|m.free| - 1];
            && Inv(Taken(m, content)) && Holding(m, Taken(m, content), d, f)
            && f in Taken(m, content).owner && Taken(m, content).owner[f] == Held && Taken(m, content).mem[f] == content
  {
    var f, u := m.free[|m.free| - 1], Popped(m);
    assert ListOk(m, |m.free| - 1);
    PoppedInv(m);
    PoppedApart(m, d);
    hide Slot, Pte, Sees;
    WrittenInv(u, f, content);
    WrittenApart(u, f, content, d);
    WrittenShows(u, f, content, d);
    ApartTrans(m, u, Taken(m, content), d);
    forall v: nat | v < PAGES
      ensures Pte(Taken(m, content).mem, d, v) == Pte(m.mem, d, v)
    {
      HeldPte(u, f, content, d, v);
    }
    hide Inv, Apart;
  }

  // The held frame has become user page v of directory d.
  lemma HoldingMapped(m: Machine, u: Machine, w: Machine, d: nat, v: nat, f: nat, flags: nat)
    requires Holding(m, u, d, f) && v < USER && Maps(u, w, d, v, Present(f, flags)) && f in u.mem && u.mem[f].Data?
    ensures Within(m, w, d, v, v + 1) && Sees(w.mem, d, v) == Cell(u.mem[f].bytes, flags)
  {
    ApartTrans(m, u, w, d);
    hide Apart;
  }

  lemma FreedHeld(m: Machine, u: Machine, w: Machine, d: nat, f: nat)
    requires Holding(m, u, d, f) && SameHeld(u, w)
    ensures SameHeld(m, Pushed(w, f))
  {
    hide Foreign, Pte, Sees;
  }

  lemma PushedPte(m: Machine, f: nat, d: nat)
    requires Inv(m) && f in m.owner && m.owner[f] == Held && d in m.dirs
    ensures forall c: nat :: c < PAGES ==> Pte(Pushed(m, f).mem, d, c) == Pte(m.mem, d, c)
  {
    hide Pte, Inv;
    forall c: nat | c < PAGES
      ensures Pte(Pushed(m, f).mem, d, c) == Pte(m.mem, d, c)
    {
      HeldPte(m, f, Junk, d, c);
    }
  }

  // Pages lo to hi have been cleared and the held frame freed.
  lemma HoldingFreed(m: Machine, u: Machine, w: Machine, d: nat, f: nat, lo: nat, hi: nat)
    requires Holding(m, u, d, f) && Cleared(u, w, d, lo, hi) && Inv(w) && d in w.dirs && f in w.owner && w.owner[f] == Held
    ensures Cleared(m, Pushed(w, f), d, lo, hi)
  {
    var r := Pushed(w, f);
    FreedHeld(m, u, w, d, f);
    PushedPte(w, f, d);
    PushedShows(w, f, d);
    PushedApart(w, f, d);
    hide Inv, SameHeld, Pte, Sees;
    ApartTrans(m, u, w, d);
    ApartTrans(m, w, r, d);
    hide Apart;
  }

  // Directory d has got zeroed pages from lo up to hi.
  ghost predicate Grown(m: Machine, w: Machine, d: nat, lo: nat, hi: nat) {
    Within(m, w, d, lo, hi) && forall u: nat :: lo <= u < hi && u < USER ==> Sees(w.mem, d, u) == Cell(ZeroPage(), PTE_W + PTE_U)
  }

  // Directory d has exactly the user pages below n.
  ghost predicate SizeIs(m: Machine, d: nat, n: nat) {
    forall u: nat :: u < USER ==> (Sees(m.mem, d, u).Cell? <==> u < n)
  }

  lemma SizeThere(m: Machine, d: nat, n: nat, v: nat)
    requires SizeIs(m, d, n) && v < n && v < USER
    ensures Sees(m.mem, d, v).Cell?
  {
    hide Sees;
  }

  lemma SizeBeyond(m: Machine, d: nat, n: nat, v: nat)
    requires SizeIs(m, d, n) && n <= v < USER
    ensures Sees(m.mem, d, v) == Nothing
  {
    hide Sees;
  }

  // Clearing the new pages brings back the old image.
  lemma GrownCleared(m: Machine, u: Machine, w: Machine, d: nat, lo: nat, v: nat, hi: nat)
    requires SizeIs(m, d, lo) && Grown(m, u, d, lo, v) && Cleared(u, w, d, lo, hi) && v <= hi
    ensures Within(m, w, d, USER, USER)
  {
    WithinWider(m, u, d, lo, v, lo, hi);
    WithinTrans(m, u, w, d, lo, hi);
    hide Pte, Apart, SameHeld;
    forall c: nat | c < USER
      ensures Sees(w.mem, d, c) == Sees(m.mem, d, c)
    {
      if lo <= c < hi {
        SizeBeyond(m, d, lo, c);
      }
    }
  }

  lemma GrownNext(m: Machine, u: Machine, w: Machine, d: nat, lo: nat, v: nat)
    requires Grown(m, u, d, lo, v) && lo <= v < USER
    requires Within(u, w, d, v, v + 1) && Sees(w.mem, d, v) == Cell(ZeroPage(), PTE_W + PTE_U)
    ensures Grown(m, w, d, lo, v + 1)
  {
    WithinWider(m, u, d, lo, v, lo, v + 1);
    WithinWider(u, w, d, v, v + 1, lo, v + 1);
    WithinTrans(m, u, w, d, lo, v + 1);
    hide Sees, Pte, Apart, SameHeld;
  }

  lemma GrownAbsent(m: Machine, u: Machine, d: nat, lo: nat, v: nat)
    requires Inv(u) && d in u.dirs && Grown(m, u, d, lo, v) && lo <= v < USER && Sees(m.mem, d, v) == Nothing
    ensures Pte(u.mem, d, v).Absent?
  {
    SeesMapped(u, d, v);
    hide Pte;
  }

  lemma TakenPte(m: Machine, w: Machine, d: nat, v: nat, f: nat)
    requires Holding(m, w, d, f) && v < PAGES
    ensures Pte(w.mem, d, v) == Pte(m.mem, d, v) && w.dirs == m.dirs
  {
    hide Pte;
  }

  lemma MapsDirs(m: Machine, w: Machine, d: nat, v: nat, e: Entry)
    requires Maps(m, w, d, v, e)
    ensures w.dirs == m.dirs
  {
  }

  // freevm() of directory d of the image m has freed the tables below x: the
  // directory and its other tables are held.
  ghost predicate Undone(m: Machine, w: Machine, d: nat, x: nat) {
    && Inv(w) && Apart(m, w, d) && w.dirs == m.dirs - {d} && d in m.mem && d in w.mem && w.mem[d] == m.mem[d]
    && forall f :: f in m.owner ==>
         && (w.owner[f] == Held <==> m.owner[f] == Held || (m.owner[f].Dir? && f == d) || Remaining(m.owner[f], d, x))
         && (m.owner[f] == Held ==> f in m.mem && f in w.mem && w.mem[f] == m.mem[f])
  }

  // A table of directory d from x on.
  predicate Remaining(p: Place, d: nat, x: nat) {
    p.Tab? && p.d == d && p.x >= x
  }

  lemma StartUndoing(m: Machine, d: nat)
    requires Inv(m) && d in m.dirs && forall v: nat :: v < USER ==> Pte(m.mem, d, v).Absent?
    ensures Undone(m, Disowned(m, d), d, 0)
  {
    DisownedInv(m, d);
    DisownedApart(m, d);
    assert DirOk(m, d);
    hide Pte, Inv, Apart;
  }

  lemma UndoneTable(m: Machine, w: Machine, d: nat, x: nat)
    requires Inv(m) && d in m.dirs && Undone(m, w, d, x) && x < ENTRIES && Slot(m.mem, d, x).Present?
    ensures var t := Slot(m.mem, d, x).frame;
            && t in w.owner && w.owner[t] == Held && t in m.owner && m.owner[t] == Tab(d, x) && t != d
  {
    assert TabOk(m, d, x) && DirOk(m, d);
  }

  lemma UndoneSkip(m: Machine, w: Machine, d: nat, x: nat)
    requires Inv(m) && d in m.dirs && Undone(m, w, d, x) && x < ENTRIES && Slot(m.mem, d, x).Absent?
    ensures Undone(m, w, d, x + 1)
  {
    hide Slot, Apart;
    forall f | f in m.owner
      ensures Remaining(m.owner[f], d, x) <==> Remaining(m.owner[f], d, x + 1)
    {
      assert OwnerOk(m, f);
    }
    hide Inv;
  }

  lemma UndoneNext(m: Machine, w: Machine, d: nat, x: nat, t: nat)
    requires Inv(m) && d in m.dirs && Undone(m, w, d, x) && x < ENTRIES && t in m.owner && m.owner[t] == Tab(d, x) && t != d
    requires t in w.owner && w.owner[t] == Held
    ensures Undone(m, Pushed(w, t), d, x + 1)
  {
    hide Inv, Apart;
    PushedInv(w, t);
    PushedApart(w, t, d);
    ApartTrans(m, w, Pushed(w, t), d);
    OtherTables(m, d, x, t);
  }

  lemma OtherTables(m: Machine, d: nat, x: nat, t: nat)
    requires Inv(m) && t in m.owner && m.owner[t] == Tab(d, x)
    ensures forall f :: f in m.owner && m.owner[f] == Tab(d, x) ==> f == t
  {
    forall f | f in m.owner && m.owner[f] == Tab(d, x)
      ensures f == t
    {
      assert OwnerOk(m, f) && OwnerOk(m, t);
    }
  }

  // Directory d and all it had are gone.
  ghost predicate Gone(m: Machine, w: Machine, d: nat) {
    Apart(m, w, d) && SameHeld(m, w) && w.dirs == m.dirs - {d}
  }

  lemma NoneRemaining(m: Machine, w: Machine, d: nat)
    requires Inv(m) && d in m.dirs && Undone(m, w, d, ENTRIES)
    ensures d in w.owner && w.owner[d] == Held && d in m.owner && m.owner[d].Dir?
    ensures forall f :: f in m.owner ==> !Remaining(m.owner[f], d, ENTRIES)
  {
    assert DirOk(m, d);
    forall f | f in m.owner
      ensures !Remaining(m.owner[f], d, ENTRIES)
    {
      assert OwnerOk(m, f);
    }
  }

  lemma UndoneLast(m: Machine, w: Machine, d: nat)
    requires Inv(m) && d in m.dirs && Undone(m, w, d, ENTRIES)
    ensures d in w.owner && w.owner[d] == Held && Inv(Pushed(w, d)) && Gone(m, Pushed(w, d), d)
  {
    NoneRemaining(m, w, d);
    hide Inv, Apart, Remaining;
    PushedInv(w, d);
    PushedApart(w, d, d);
    ApartTrans(m, w, Pushed(w, d), d);
    UndoneHeld(m, w, d);
  }

  lemma UndoneHeld(m: Machine, w: Machine, d: nat)
    requires Undone(m, w, d, ENTRIES) && d in m.owner && m.owner[d].Dir?
    requires forall f :: f in m.owner ==> !Remaining(m.owner[f], d, ENTRIES)
    ensures SameHeld(m, Pushed(w, d))
  {
    hide Inv, Remaining, Foreign;
  }

  lemma DisownedSame(m: Machine, d: nat)
    ensures Disowned(m, d).mem == m.mem && Disowned(m, d).free == m.free
  {
  }

  lemma UndoneReady(m: Machine, w: Machine, d: nat, x: nat)
    requires Inv(m) && d in m.dirs && Undone(m, w, d, x)
    ensures Inv(w) && d in m.mem && m.mem[d].Table? && d in w.mem && w.mem[d] == m.mem[d]
    ensures x < ENTRIES ==> Slot(m.mem, d, x) == m.mem[d].entries[x]
  {
    assert DirOk(m, d);
  }

  lemma ClearedAll(m: Machine, w: Machine, d: nat)
    requires Inv(w) && Cleared(m, w, d, Pages(0), Pages(KERNBASE)) && d in m.dirs
    ensures d in w.dirs && forall v: nat :: v < USER ==> Pte(w.mem, d, v).Absent?
  {
    hide Pte, Slot;
    forall v: nat | v < USER
      ensures Pte(w.mem, d, v).Absent?
    {
      SeesMapped(w, d, v);
    }
  }

  lemma GoneAfter(m: Machine, u: Machine, w: Machine, d: nat)
    requires Cleared(m, u, d, Pages(0), Pages(KERNBASE)) && Gone(u, w, d)
    ensures Gone(m, w, d)
  {
    ApartTrans(m, u, w, d);
    SameHeldTrans(m, u, w);
  }

  // A part of the kernel's address space: n pages from v on, mapped to frames from frame on.
  datatype Range = Range(v: nat, n: nat, frame: nat, flags: nat)

  // The kernel's parts lie above the user's, in order and apart from each other.
  predicate KmapOk(kmap: seq<Range>) {
    && (forall i :: 0 <= i < |kmap| ==> USER <= kmap[i].v && kmap[i].n >= 1 && kmap[i].v + kmap[i].n <= PAGES)
    && forall i, j :: 0 <= i < j < |kmap| ==> kmap[i].v + kmap[i].n <= kmap[j].v
  }

  // kmap[] of vm.c, in pages, for a kernel whose data starts in frame data: I/O space,
  // text and read-only data, data and memory up to PHYSTOP, devices.
  function KernelMap(data: nat): (kmap: seq<Range>)
    requires EXTMEM < data < PHYSTOP
  {
    [Range(USER, EXTMEM, 0, PTE_W),
     Range(USER + EXTMEM, data - EXTMEM, EXTMEM, 0),
     Range(USER + data, PHYSTOP - data, data, PTE_W),
     Range(DEVSPACE, PAGES - DEVSPACE, DEVSPACE, PTE_W)]
  }

  lemma KernelMapOk(data: nat)
    requires EXTMEM < data < PHYSTOP
    ensures KmapOk(KernelMap(data))
  {
  }

  predicate Covers(r: Range, u: nat) {
    r.v <= u < r.v + r.n
  }

  // What the first i parts say about page u.
  function KernelEntry(kmap: seq<Range>, i: nat, u: nat): (e: Entry)
    requires i <= |kmap|
  {
    if i == 0 then Absent
    else if Covers(kmap[i - 1], u) then Present(kmap[i - 1].frame + (u - kmap[i - 1].v), kmap[i - 1].flags)
    else KernelEntry(kmap, i - 1, u)
  }

  lemma {:induction false} KernelEntryAbsent(kmap: seq<Range>, i: nat, u: nat)
    requires i <= |kmap| && forall j :: 0 <= j < i ==> !Covers(kmap[j], u)
    ensures KernelEntry(kmap, i, u).Absent?
  {
    if i > 0 {
      KernelEntryAbsent(kmap, i - 1, u);
    }
  }

  // Page u of the kernel's half is mapped as the part that covers it says, and not at all if none does.
  ghost predicate KernelPage(kmap: seq<Range>, u: nat, e: Entry) {
    && (forall i :: 0 <= i < |kmap| && Covers(kmap[i], u) ==> e == Present(kmap[i].frame + (u - kmap[i].v), kmap[i].flags))
    && ((forall i :: 0 <= i < |kmap| ==> !Covers(kmap[i], u)) ==> e == Absent)
  }

  // The kernel is mapped in directory d.
  ghost predicate KernelMapped(mem: map<nat, Frame>, d: nat, kmap: seq<Range>) {
    forall u: nat :: USER <= u < PAGES ==> KernelPage(kmap, u, Pte(mem, d, u))
  }

  lemma {:induction false} KernelEntryOf(kmap: seq<Range>, i: nat, j: nat, u: nat)
    requires KmapOk(kmap) && j < i <= |kmap| && Covers(kmap[j], u)
    ensures KernelEntry(kmap, i, u) == Present(kmap[j].frame + (u - kmap[j].v), kmap[j].flags)
  {
    if j < i - 1 {
      KernelEntryOf(kmap, i - 1, j, u);
    }
  }

  /** The parts, mapped one after the other, give every page what its own part says. */
  lemma KernelEntryPage(kmap: seq<Range>, u: nat)
    requires KmapOk(kmap)
    ensures KernelPage(kmap, u, KernelEntry(kmap, |kmap|, u))
  {
    forall j | 0 <= j < |kmap| && Covers(kmap[j], u)
      ensures KernelEntry(kmap, |kmap|, u) == Present(kmap[j].frame + (u - kmap[j].v), kmap[j].flags)
    {
      KernelEntryOf(kmap, |kmap|, j, u);
    }
    if forall j :: 0 <= j < |kmap| ==> !Covers(kmap[j], u) {
      KernelEntryAbsent(kmap, |kmap|, u);
    }
  }

  /** kmap[] means: memory is at KERNBASE and up, devices where they are; only the text cannot be written. */
  lemma KernelMapMeans(data: nat, u: nat, e: Entry)
    requires EXTMEM < data < PHYSTOP && USER <= u < PAGES && KernelPage(KernelMap(data), u, e)
    ensures u < USER + PHYSTOP ==> e == Present(u - USER, if EXTMEM <= u - USER < data then 0 else PTE_W)
    ensures USER + PHYSTOP <= u < DEVSPACE ==> e == Absent
    ensures DEVSPACE <= u ==> e == Present(u, PTE_W)
  {
    var kmap := KernelMap(data);
    if u < USER + EXTMEM {
      assert Covers(kmap[0], u);
    } else if u < USER + data {
      assert Covers(kmap[1], u);
    } else if u < USER + PHYSTOP {
      assert Covers(kmap[2], u);
    } else if u >= DEVSPACE {
      assert Covers(kmap[3], u);
    }
  }

  function Total(kmap: seq<Range>, i: nat): (n: nat)
    requires i <= |kmap|
  {
    if i == 0 then 0 else Total(kmap, i - 1) + kmap[i - 1].n
  }

  // mappages() of the first k pages of r.
  ghost predicate Ranged(m: Machine, w: Machine, d: nat, r: Range, k: nat) {
    && Apart(m, w, d) && SameHeld(m, w) && w.dirs == m.dirs
    && forall u: nat :: u < PAGES ==>
         Pte(w.mem, d, u) == if r.v <= u < r.v + k then Present(r.frame + (u - r.v), r.flags) else Pte(m.mem, d, u)
  }

  lemma RangedStart(m: Machine, d: nat, r: Range)
    requires Inv(m)
    ensures Ranged(m, m, d, r, 0)
  {
    ApartSelf(m, d);
  }

  lemma RangedNext(m: Machine, u: Machine, w: Machine, d: nat, r: Range, k: nat)
    requires Ranged(m, u, d, r, k) && r.v + k >= USER && Maps(u, w, d, r.v + k, Present(r.frame + k, r.flags))
    ensures Ranged(m, w, d, r, k + 1)
  {
    ApartTrans(m, u, w, d);
    hide Apart, Pte, Shows;
  }

  lemma RangedAbsent(m: Machine, w: Machine, d: nat, r: Range, k: nat)
    requires Ranged(m, w, d, r, k) && r.v + k < PAGES && Pte(m.mem, d, r.v + k).Absent?
    ensures Pte(w.mem, d, r.v + k).Absent? && w.dirs == m.dirs
  {
    hide Pte;
  }

  // setupkvm() has made directory d and mapped the first i parts of the kernel.
  ghost predicate Building(m: Machine, w: Machine, d: nat, kmap: seq<Range>, i: nat)
    requires i <= |kmap|
  {
    && Inv(w) && Apart(m, w, d) && SameHeld(m, w) && d !in m.dirs && w.dirs == m.dirs + {d}
    && forall u: nat :: u < PAGES ==> Pte(w.mem, d, u) == KernelEntry(kmap, i, u)
  }

  // A free frame has become an empty directory.
  lemma StartBuilding(m: Machine, kmap: seq<Range>)
    requires Inv(m) && |m.free| > 0
    ensures var d := m.free[|m.free| - 1]; Building(m, Adopted(Popped(m), d), d, kmap, 0)
  {
    var d, u := m.free[|m.free| - 1], Popped(m);
    assert ListOk(m, |m.free| - 1);
    PoppedInv(m);
    PoppedApart(m, d);
    AdoptedInv(u, d);
    AdoptedApart(u, d);
    NotADir(u, d);
    ApartTrans(m, u, Adopted(u, d), d);
    hide Inv, Apart, Pte;
  }

  lemma BuildingAbsent(m: Machine, w: Machine, d: nat, kmap: seq<Range>, i: nat, u: nat)
    requires KmapOk(kmap) && i < |kmap| && Building(m, w, d, kmap, i) && Covers(kmap[i], u)
    ensures u < PAGES && Pte(w.mem, d, u).Absent?
  {
    KernelEntryAbsent(kmap, i, u);
    hide Pte, Inv, Apart;
  }

  lemma BuildingNext(m: Machine, u: Machine, w: Machine, d: nat, kmap: seq<Range>, i: nat)
    requires i < |kmap| && Building(m, u, d, kmap, i) && Inv(w) && Ranged(u, w, d, kmap[i], kmap[i].n)
    ensures Building(m, w, d, kmap, i + 1)
  {
    ApartTrans(m, u, w, d);
    SameHeldTrans(m, u, w);
    hide Inv, Apart, Pte, SameHeld;
  }

  // The same directories, with the same frames and contents, and the same free frames.
  ghost predicate Restored(m: Machine, w: Machine) {
    && w.dirs == m.dirs && w.owner.Keys == m.owner.Keys
    && forall f :: f in m.owner ==>
         if m.owner[f].Listed? then w.owner[f].Listed?
         else w.owner[f] == m.owner[f] && f in m.mem && f in w.mem && w.mem[f] == m.mem[f]
  }

  /** Everything directory d had taken is back. */
  lemma AllBack(m: Machine, w: Machine, d: nat)
    requires Inv(m) && Inv(w) && Apart(m, w, d) && SameHeld(m, w) && d !in m.dirs && w.dirs == m.dirs
    ensures Restored(m, w)
  {
    forall f | f in m.owner
      ensures if m.owner[f].Listed? then w.owner[f].Listed?
              else w.owner[f] == m.owner[f] && f in m.mem && f in w.mem && w.mem[f] == m.mem[f]
    {
      assert OwnerOk(m, f) && OwnerOk(w, f);
    }
  }

  lemma BuildingGone(m: Machine, u: Machine, w: Machine, d: nat)
    requires Inv(m) && Inv(w) && Apart(m, u, d) && SameHeld(m, u) && d !in m.dirs && u.dirs == m.dirs + {d} && Gone(u, w, d)
    ensures Restored(m, w)
  {
    ApartTrans(m, u, w, d);
    SameHeldTrans(m, u, w);
    hide Inv, Apart, SameHeld;
    assert w.dirs == m.dirs;
    AllBack(m, w, d);
  }

  lemma BuildingPartly(m: Machine, u: Machine, w: Machine, d: nat, kmap: seq<Range>, i: nat, k: nat)
    requires i < |kmap| && Building(m, u, d, kmap, i) && Ranged(u, w, d, kmap[i], k)
    ensures Apart(m, w, d) && SameHeld(m, w) && d !in m.dirs && w.dirs == m.dirs + {d}
  {
    ApartTrans(m, u, w, d);
    SameHeldTrans(m, u, w);
  }

  lemma BuildingReady(m: Machine, w: Machine, d: nat, kmap: seq<Range>, i: nat)
    requires i <= |kmap| && Building(m, w, d, kmap, i)
    ensures Inv(w) && d in w.dirs
  {
  }

  lemma RestoredSelf(m: Machine)
    requires Inv(m)
    ensures Restored(m, m)
  {
  }

  lemma {:induction false} TotalGrows(kmap: seq<Range>, i: nat, j: nat)
    requires i <= j <= |kmap|
    ensures Total(kmap, i) <= Total(kmap, j)
  {
    if i < j {
      TotalGrows(kmap, i, j - 1);
    }
  }

  // copyuvm() of directory d of the image m has given directory c its first v pages.
  ghost predicate Copied(m: Machine, w: Machine, d: nat, c: nat, v: nat, kmap: seq<Range>) {
    && Inv(w) && Apart(m, w, c) && SameHeld(m, w) && c !in m.dirs && w.dirs == m.dirs + {c}
    && (forall u: nat :: u < USER ==> Sees(w.mem, c, u) == if u < v then Sees(m.mem, d, u) else Nothing)
    && KernelMapped(w.mem, c, kmap)
  }

  lemma BuildingMapped(m: Machine, w: Machine, c: nat, kmap: seq<Range>)
    requires KmapOk(kmap) && Building(m, w, c, kmap, |kmap|)
    ensures KernelMapped(w.mem, c, kmap) && forall u: nat :: u < USER ==> Pte(w.mem, c, u) == Absent
  {
    hide Inv, Apart, SameHeld, Pte, KernelPage, KernelEntry;
    forall u: nat | USER <= u < PAGES
      ensures KernelPage(kmap, u, Pte(w.mem, c, u))
    {
      KernelEntryPage(kmap, u);
    }
    forall u: nat | u < USER
      ensures Pte(w.mem, c, u) == Absent
    {
      KernelEntryAbsent(kmap, |kmap|, u);
    }
  }

  lemma KernelKept(m: Machine, w: Machine, c: nat, lo: nat, hi: nat, kmap: seq<Range>)
    requires Within(m, w, c, lo, hi) && KernelMapped(m.mem, c, kmap)
    ensures KernelMapped(w.mem, c, kmap)
  {
    hide Pte, Sees, Apart, SameHeld, KernelPage;
    forall u: nat | USER <= u < PAGES
      ensures KernelPage(kmap, u, Pte(w.mem, c, u))
    {
      assert KernelPage(kmap, u, Pte(m.mem, c, u));
    }
  }

  lemma StartCopied(m: Machine, w: Machine, d: nat, c: nat, kmap: seq<Range>)
    requires KmapOk(kmap) && Building(m, w, c, kmap, |kmap|)
    ensures Copied(m, w, d, c, 0, kmap)
  {
    BuildingMapped(m, w, c, kmap);
    hide Inv, Apart, SameHeld, Pte, KernelMapped;
  }

  lemma CopiedAbsent(m: Machine, w: Machine, d: nat, c: nat, v: nat, kmap: seq<Range>)
    requires Copied(m, w, d, c, v, kmap) && v < USER
    ensures Pte(w.mem, c, v).Absent? && c in w.dirs
  {
    SeesMapped(w, c, v);
    hide Pte, Inv, Apart, SameHeld;
  }

  // The parent's page can be read: the panics of copyuvm() are out of reach.
  lemma CopiedSource(m: Machine, w: Machine, d: nat, c: nat, v: nat, kmap: seq<Range>)
    requires Inv(m) && d in m.dirs && Copied(m, w, d, c, v, kmap) && v < USER && Sees(m.mem, d, v).Cell?
    ensures d in w.dirs && Tabled(w, d, v) && Sees(w.mem, d, v) == Sees(m.mem, d, v) && Pte(w.mem, d, v).Present?
    ensures Pte(w.mem, d, v).frame in w.mem && w.mem[Pte(w.mem, d, v).frame].Data?
  {
    ApartSees(m, w, c, d, v);
    hide Inv, Apart, SameHeld, Slot;
  }

  lemma CopiedNext(m: Machine, u: Machine, w: Machine, d: nat, c: nat, v: nat, kmap: seq<Range>)
    requires Copied(m, u, d, c, v, kmap) && v < USER && Inv(w) && Within(u, w, c, v, v + 1) && Sees(w.mem, c, v) == Sees(m.mem, d, v)
    ensures Copied(m, w, d, c, v + 1, kmap)
  {
    ApartTrans(m, u, w, c);
    SameHeldTrans(m, u, w);
    KernelKept(u, w, c, v, v + 1, kmap);
    hide Inv, Apart, SameHeld, Sees, Pte, KernelMapped;
  }

  lemma CopiedParts(m: Machine, w: Machine, d: nat, c: nat, v: nat, kmap: seq<Range>)
    requires Copied(m, w, d, c, v, kmap)
    ensures Inv(w) && Apart(m, w, c) && SameHeld(m, w) && c !in m.dirs && w.dirs == m.dirs + {c}
    ensures KernelMapped(w.mem, c, kmap)
  {
  }

  // A frame that could not be mapped has been freed.
  lemma HoldingBack(m: Machine, u: Machine, w: Machine, c: nat, f: nat)
    requires Apart(m, u, c) && SameHeld(m, u) && Holding(u, w, c, f) && Inv(w) && f in w.owner && w.owner[f] == Held
    ensures Apart(m, Pushed(w, f), c) && SameHeld(m, Pushed(w, f)) && Pushed(w, f).dirs == u.dirs
  {
    FreedHeld(u, w, w, c, f);
    SameHeldTrans(m, u, Pushed(w, f));
    PushedApart(w, f, c);
    ApartTrans(m, u, w, c);
    ApartTrans(m, w, Pushed(w, f), c);
  }

  /** A failed copyuvm() or setupkvm() leaves exactly the free frames it found. */
  lemma RestoredFree(m: Machine, w: Machine, f: nat)
    requires Inv(m) && Inv(w) && Restored(m, w)
    ensures f in m.free <==> f in w.free
  {
    if f in m.owner {
      ListedFree(m, f);
      ListedFree(w, f);
    } else {
      assert f !in w.owner;
      NotFree(m, f);
      NotFree(w, f);
    }
  }

  lemma NotFree(m: Machine, f: nat)
    requires Inv(m) && f !in m.owner
    ensures f !in m.free
  {
    forall i | 0 <= i < |m.free|
      ensures m.free[i] != f
    {
      assert ListOk(m, i);
    }
  }

  /** After allocuvm() the user pages are exactly those below the new size. */
  lemma GrownSize(m: Machine, w: Machine, d: nat, lo: nat, hi: nat)
    requires SizeIs(m, d, lo) && Grown(m, w, d, lo, hi) && lo <= hi
    ensures SizeIs(w, d, hi)
  {
    hide Sees, Pte, Apart, SameHeld;
  }

  /** After deallocuvm() they are exactly those below the smaller size. */
  lemma ClearedSize(m: Machine, w: Machine, d: nat, lo: nat, n: nat, hi: nat)
    requires SizeIs(m, d, n) && Cleared(m, w, d, lo, hi) && lo <= n <= hi
    ensures SizeIs(w, d, lo)
  {
    hide Sees, Pte, Apart, SameHeld;
  }

  /** After copyuvm() parent and child show the same, and what the parent shows has not changed. */
  lemma CopiedSame(m: Machine, w: Machine, d: nat, c: nat, n: nat, u: nat, kmap: seq<Range>)
    requires Inv(m) && d in m.dirs && Copied(m, w, d, c, n, kmap) && SizeIs(m, d, n) && u < USER
    ensures Sees(w.mem, c, u) == Sees(m.mem, d, u) && Sees(w.mem, d, u) == Sees(m.mem, d, u)
  {
    ApartSees(m, w, c, d, u);
    hide Inv, Apart, SameHeld, Pte;
    if u >= n {
      SizeBeyond(m, d, n, u);
    }
  }

  datatype AddResult = Added | NoFrame | NoTable(f: nat)

  datatype MapResult = Mapped | NoMemory | Remap

  // Nothing has been freed yet: the code that starts the machine has all frames.
  function Untouched(first: nat, end: nat): (m: Machine) {
    Machine(AllJunk(first, end), [], map f | f in AllJunk(first, end) :: Held, {})
  }

  predicate Inside(f: nat, first: nat, end: nat) {
    first <= f < end
  }

  function AllJunk(first: nat, end: nat): (mem: map<nat, Frame>) {
    map f: nat | first <= f < end && Inside(f, first, end) :: Junk
  }

  lemma StartUntouched(first: nat, end: nat)
    ensures Inv(Untouched(first, end))
  {
  }

  class Kernel {
    var mem: map<nat, Frame>   // the frames kinit() found, and what they hold
    var free: seq<nat>         // the free list, its head last
    ghost var m: Machine       // mem and free, with the owner of every frame

    ghost predicate Ready()
      reads this
    {
      m.mem == mem && m.free == free && Inv(m)
    }

    /** kinit1() and kinit2(): every whole page between the two addresses is free, once. */
    constructor (vstart: nat, vend: nat)
      ensures Ready() && m.dirs == {}
      ensures forall f: nat :: f in m.owner <==> Pages(vstart) <= f && (f + 1) * PGSIZE <= vend
      ensures forall f :: f in m.owner ==> m.owner[f].Listed?
    {
      mem := AllJunk(Pages(vstart), vend / PGSIZE);
      free := [];
      m := Untouched(Pages(vstart), vend / PGSIZE);
      new;
      StartUntouched(Pages(vstart), vend / PGSIZE);
      FreeRange(Pages(vstart), vend);
    }

    // freerange(), from a page on: the pages before it are free already.
    method FreeRange(first: nat, vend: nat)
      requires Ready() && m.dirs == {} && free == []
      requires forall f: nat :: f in m.owner <==> first <= f < vend / PGSIZE
      requires forall f :: f in m.owner ==> m.owner[f] == Held
      modifies this`mem, this`free, this`m
      ensures Ready() && m.dirs == {}
      ensures forall f: nat :: f in m.owner <==> first <= f && (f + 1) * PGSIZE <= vend
      ensures forall f :: f in m.owner ==> m.owner[f].Listed?
    {
      hide Inv;
      var p := first;
      while (p + 1) * PGSIZE <= vend
        invariant first <= p && Ready() && m.dirs == {}
        invariant forall f: nat :: f in m.owner <==> first <= f < vend / PGSIZE
        invariant forall f :: f in m.owner ==> if f < p then m.owner[f].Listed? else m.owner[f] == Held
        decreases vend - p
      {
        Kfree(p);
        p := p + 1;
      }
    }

    /** kalloc(): a frame from the free list; none only if the list is empty. */
    method Kalloc() returns (r: Option<nat>)
      requires Ready()
      modifies this`free, this`m
      ensures Ready() && (r.None? <==> old(free) == [])
      ensures r.None? ==> m == old(m)
      ensures r.Some? ==> m == Popped(old(m)) && r.value == old(free)[|old(free)| - 1]
      ensures r.Some? ==> r.value in m.owner && m.owner[r.value] == Held && old(m).owner[r.value] != Held
    {
      if free == [] {
        return None;
      }
      ghost var n := |free| - 1;
      assert ListOk(m, n);
      PoppedInv(m);
      hide Inv;
      r := Some(free[|free| - 1]);
      free := free[..|free| - 1];
      m := Popped(m);
    }

    /** kfree() */
    method Kfree(f: nat)
      requires Ready() && f in m.owner && m.owner[f] == Held
      modifies this`mem, this`free, this`m
      ensures Ready() && m == Pushed(old(m), f)
    {
      PushedInv(m, f);
      hide Inv;
      mem := mem[f := Junk];
      free := free + [f];
      m := Pushed(m, f);
    }

    // memset() or memmove() into a frame that is held.
    method Fill(f: nat, content: Frame)
      requires Ready() && f in m.owner && m.owner[f] == Held
      modifies this`mem, this`m
      ensures Ready() && m == Written(old(m), f, content)
    {
      WrittenInv(m, f, content);
      hide Inv;
      mem := mem[f := content];
      m := Written(m, f, content);
    }

    // A new, empty page table.
    method AddTable(d: nat, x: nat) returns (t: nat)
      requires Ready() && d in m.dirs && x < ENTRIES && free != [] && Slot(mem, d, x).Absent?
      modifies this`mem, this`free, this`m
      ensures Ready() && Quiet(old(m), m, d) && |free| == |old(free)| - 1
      ensures Slot(mem, d, x) == Present(t, PTE_W + PTE_U)
    {
      hide Inv, Quiet, Pte, Frames.Blank;
      QuietTable(m, d, x, PTE_W + PTE_U);
      var r := Kalloc();
      t := r.value;
      mem := mem[t := Table(Frames.Blank())];
      mem := mem[d := Table(mem[d].entries[x := Present(t, PTE_W + PTE_U)])];
      m := NewTable(m, d, x, t, PTE_W + PTE_U);
    }

    /** walkpgdir(): the page table of a page, made if asked for; it fails only without memory. */
    method Walk(d: nat, v: nat, alloc: bool) returns (r: Option<nat>)
      requires Ready() && d in m.dirs && v < PAGES
      modifies this`mem, this`free, this`m
      ensures Ready() && Quiet(old(m), m, d) && |old(free)| - 1 <= |free| <= |old(free)|
      ensures r.Some? ==> Tabled(m, d, v) && r.value == TableOf(m, d, v)
      ensures r.None? ==> m == old(m) && !Tabled(m, d, v) && (alloc ==> free == [])
      ensures !alloc || old(Tabled(m, d, v)) ==> m == old(m)
    {
      QuietSelf(m, d);
      assert DirOk(m, d);
      hide Inv, Quiet, Pte;
      var pde := mem[d].entries[v / ENTRIES];
      if pde.Present? {
        return Some(pde.frame);
      }
      if !alloc || free == [] {
        return None;
      }
      var t := AddTable(d, v / ENTRIES);
      return Some(t);
    }

    /** One page of mappages(): its entry is set, unless there is no memory or it was set before. */
    method MapPage(d: nat, v: nat, e: Entry) returns (r: MapResult)
      requires Ready() && d in m.dirs && v < PAGES && e.Present?
      requires v < USER ==> e.frame in m.owner && m.owner[e.frame] == Held && e.frame in m.mem && m.mem[e.frame].Data?
      modifies this`mem, this`free, this`m
      ensures Ready() && |old(free)| - 1 <= |free| <= |old(free)|
      ensures r.NoMemory? ==> m == old(m) && free == []
      ensures r.Remap? ==> Quiet(old(m), m, d) && old(Pte(m.mem, d, v)).Present?
      ensures r.Mapped? ==> Maps(old(m), m, d, v, e)
    {
      ghost var u := m;
      hide Inv, Quiet, Pte, Maps, Slot, TableOf, Tabled;
      var t := Walk(d, v, true);
      if t.None? {
        return NoMemory;
      }
      var tab := t.value;
      ghost var w := m;
      QuietPte(u, w, d, v);
      PteInTable(w, d, v);
      if mem[tab].entries[v % ENTRIES].Present? {
        return Remap;
      }
      MapsNext(u, w, d, v, e);
      mem := mem[tab := Table(mem[tab].entries[v % ENTRIES := e])];
      m := NewEntry(w, d, v, e, e.frame, User(d, v));
      return Mapped;
    }

    // Page v of deallocuvm(): its frame, if it has one, goes back to the free list.
    method DropPage(d: nat, v: nat, tab: nat)
      requires Ready() && d in m.dirs && v < USER && Tabled(m, d, v) && tab == TableOf(m, d, v)
      modifies this`mem, this`free, this`m
      ensures Ready() && Cleared(old(m), m, d, v, v + 1) && |free| >= |old(free)|
    {
      ghost var u := m;
      hide Slot, Pte, TableOf, Tabled, Cleared, Inv, Sees;
      PteInTable(u, d, v);
      SeesMapped(u, d, v);
      var pte := mem[tab].entries[v % ENTRIES];
      if pte.Absent? {
        ClearedNothing(u, d, v, v + 1);
        return;
      }
      DropFacts(u, d, v);
      mem := mem[tab := Table(mem[tab].entries[v % ENTRIES := Absent])];
      m := NewEntry(u, d, v, Absent, pte.frame, Held);
      Kfree(pte.frame);
    }

    // deallocuvm() of the image m0 from page lo on has come to page v.
    ghost predicate Dropping(m0: Machine, d: nat, lo: nat, v: nat, n: nat)
      reads this
    {
      Ready() && d in m.dirs && Cleared(m0, m, d, lo, v) && |free| >= n
    }

    // One turn of the loop: page v, or all pages of a missing page table.
    method DropNext(d: nat, v: nat, ghost m0: Machine, ghost lo: nat, ghost hi: nat, ghost n: nat) returns (v': nat)
      requires Dropping(m0, d, lo, v, n) && lo <= v < hi <= USER
      modifies this`mem, this`free, this`m
      ensures v < v' && Dropping(m0, d, lo, Minimum(v', hi), n)
    {
      ghost var u := m;
      hide Inv, Cleared, Quiet, Slot, TableOf, Tabled, Pte;
      var t := Walk(d, v, false);
      if t.None? {
        v' := (v / ENTRIES + 1) * ENTRIES;
        UntabledNothing(u, d, v);
        ClearedNothing(u, d, v, Minimum(v', hi));
        ClearedNext(m0, u, u, d, lo, v, Minimum(v', hi));
      } else {
        v' := v + 1;
        DropPage(d, v, t.value);
        ClearedNext(m0, u, m, d, lo, v, v');
        ClearedDirs(u, m, d, v, v');
      }
    }

    /**
      deallocuvm(): the user pages from newsz up to oldsz are gone and their frames
      free.  The jump over a missing page table skips only pages that are not there.
     */
    method DeallocUvm(d: nat, oldsz: nat, newsz: nat) returns (sz: nat)
      requires Ready() && d in m.dirs && oldsz <= KERNBASE
      modifies this`mem, this`free, this`m
      ensures Ready() && Cleared(old(m), m, d, Pages(newsz), Pages(oldsz)) && |free| >= |old(free)|
      ensures sz == if newsz >= oldsz then oldsz else newsz
    {
      ghost var m0, n, hi := m, |free|, Pages(oldsz);
      var lo := Pages(newsz);
      hide Pages, Cleared, Inv;
      if newsz >= oldsz {
        PagesMonotone(oldsz, newsz);
        ClearedNothing(m0, d, lo, hi);
        return oldsz;
      }
      PagesBound(oldsz);
      PagesMonotone(newsz, oldsz);
      ClearedNothing(m0, d, lo, lo);
      var v := lo;
      hide Dropping;
      assert Dropping(m0, d, lo, Minimum(v, hi), n) by {
        StartDropping(m0, d, lo, n);
      }
      while v * PGSIZE < oldsz
        invariant lo <= v && Dropping(m0, d, lo, Minimum(v, hi), n)
        decreases hi - v
      {
        PagesAbove(oldsz, v);
        v := DropNext(d, v, m0, lo, hi, n);
      }
      PagesAtMost(oldsz, v);
      DroppingDone(m0, d, lo, hi, n);
      return newsz;
    }

    lemma StartDropping(m0: Machine, d: nat, lo: nat, n: nat)
      requires Ready() && d in m.dirs && m == m0 && |free| == n && Cleared(m0, m0, d, lo, lo)
      ensures Dropping(m0, d, lo, lo, n)
    {
      hide Cleared, Inv;
    }

    lemma DroppingDone(m0: Machine, d: nat, lo: nat, hi: nat, n: nat)
      requires Dropping(m0, d, lo, hi, n)
      ensures Ready() && Cleared(m0, m, d, lo, hi) && |free| >= n
    {
      hide Cleared, Inv;
    }

    // allocuvm() of the image m0 from page lo on has come to page v.
    ghost predicate Growing(m0: Machine, d: nat, lo: nat, v: nat, n: nat)
      reads this
    {
      Ready() && d in m.dirs && Grown(m0, m, d, lo, v) && |free| + 2 * (v - lo) >= n
    }

    // kalloc() and memset() or memmove().
    method TakeFrame(content: Frame, ghost d: nat) returns (r: Option<nat>)
      requires Ready() && d in m.dirs
      modifies this`mem, this`free, this`m
      ensures Ready() && d in m.dirs && (r.None? <==> old(free) == [])
      ensures r.None? ==> m == old(m)
      ensures r.Some? ==> |free| == |old(free)| - 1 && Holding(old(m), m, d, r.value)
      ensures r.Some? ==> r.value in m.owner && m.owner[r.value] == Held && r.value in m.mem && m.mem[r.value] == content
    {
      ghost var u := m;
      hide Inv, Holding;
      r := Kalloc();
      if r.Some? {
        TakenHolding(u, content, d);
        Fill(r.value, content);
      }
    }

    // A new user page with the given bytes, as allocuvm() and copyuvm() make it.
    method AddPage(d: nat, v: nat, bytes: Bytes, flags: nat) returns (r: AddResult)
      requires Ready() && d in m.dirs && v < USER && Pte(m.mem, d, v).Absent?
      modifies this`mem, this`free, this`m
      ensures Ready() && d in m.dirs
      ensures r.Added? ==> Within(old(m), m, d, v, v + 1) && Sees(m.mem, d, v) == Cell(bytes, flags) && |free| >= |old(free)| - 2
      ensures r.NoFrame? ==> m == old(m) && free == []
      ensures r.NoTable? ==> Holding(old(m), m, d, r.f) && r.f in m.owner && m.owner[r.f] == Held && |old(free)| <= 1
    {
      ghost var u := m;
      hide Inv, Holding, Pte, Within, Quiet, Maps, Sees;
      var f := TakeFrame(Data(bytes), d);
      if f.None? {
        return NoFrame;
      }
      ghost var t := m;
      TakenPte(u, t, d, v, f.value);
      var mapped := MapPage(d, v, Present(f.value, flags));
      if mapped.NoMemory? {
        return NoTable(f.value);
      }
      HoldingMapped(u, t, m, d, v, f.value, flags);
      MapsDirs(t, m, d, v, Present(f.value, flags));
      return Added;
    }

    // One turn of the loop of allocuvm(): a zeroed page.
    method GrowNext(d: nat, v: nat, ghost m0: Machine, ghost lo: nat, ghost n: nat) returns (r: AddResult)
      requires Growing(m0, d, lo, v, n) && lo <= v < USER && Sees(m0.mem, d, v) == Nothing
      modifies this`mem, this`free, this`m
      ensures Ready() && d in m.dirs
      ensures r.Added? ==> Growing(m0, d, lo, v + 1, n)
      ensures !r.Added? ==> n <= 2 * (v - lo) + 1
      ensures r.NoFrame? ==> m == old(m)
      ensures r.NoTable? ==> Holding(old(m), m, d, r.f) && r.f in m.owner && m.owner[r.f] == Held
    {
      ghost var u := m;
      GrownAbsent(m0, u, d, lo, v);
      hide Inv, Grown, Holding, Pte, Within, Sees;
      r := AddPage(d, v, ZeroPage(), PTE_W + PTE_U);
      if r.Added? {
        GrownNext(m0, u, m, d, lo, v);
      }
    }

    lemma StartGrowing(d: nat, lo: nat)
      requires Ready() && d in m.dirs
      ensures Growing(m, d, lo, lo, |free|)
    {
      WithinSelf(m, d, lo, lo);
      hide Inv, Within;
    }

    lemma GrowingGrown(m0: Machine, d: nat, lo: nat, v: nat, n: nat)
      requires Growing(m0, d, lo, v, n)
      ensures Ready() && d in m.dirs && Grown(m0, m, d, lo, v)
    {
      hide Inv, Grown;
    }

    // allocuvm() has failed at page v: what it mapped is unmapped, and a frame it could not map is freed.
    method GiveBack(d: nat, oldsz: nat, newsz: nat, r: AddResult, ghost m0: Machine, ghost u: Machine, ghost v: nat)
      requires Ready() && d in m.dirs && oldsz <= newsz < KERNBASE && !r.Added?
      requires SizeIs(m0, d, Pages(oldsz)) && Grown(m0, u, d, Pages(oldsz), v) && v <= Pages(newsz)
      requires r.NoFrame? ==> m == u
      requires r.NoTable? ==> Holding(u, m, d, r.f) && r.f in m.owner && m.owner[r.f] == Held
      modifies this`mem, this`free, this`m
      ensures Ready() && d in m.dirs && Within(m0, m, d, USER, USER)
    {
      hide Inv, Cleared, Holding, Grown, SizeIs, Within, Pages;
      ghost var lo, hi, w := Pages(oldsz), Pages(newsz), m;
      var x := DeallocUvm(d, newsz, oldsz);
      ClearedDirs(w, m, d, lo, hi);
      if r.NoTable? {
        ClearedHeld(w, m, d, lo, hi, r.f);
        HoldingFreed(u, w, m, d, r.f, lo, hi);
        Kfree(r.f);
      }
      GrownCleared(m0, u, m, d, lo, v, hi);
    }

    /**
      allocuvm(): newsz bytes of user memory, the new pages zeroed.  When memory runs
      out it gives back every frame it took for pages and answers 0; it does not
      fail with two free frames for each new page.
     */
    method AllocUvm(d: nat, oldsz: nat, newsz: nat) returns (sz: nat)
      requires Ready() && d in m.dirs && oldsz < KERNBASE && SizeIs(m, d, Pages(oldsz))
      modifies this`mem, this`free, this`m
      ensures Ready() && d in m.dirs
      ensures newsz >= KERNBASE ==> sz == 0 && m == old(m)
      ensures newsz < oldsz ==> sz == oldsz && m == old(m)
      ensures oldsz <= newsz < KERNBASE && sz == newsz != 0 ==> Grown(old(m), m, d, Pages(oldsz), Pages(newsz))
      ensures oldsz <= newsz < KERNBASE && sz != newsz ==>
                sz == 0 && Within(old(m), m, d, USER, USER) && |old(free)| < 2 * (Pages(newsz) - Pages(oldsz))
    {
      hide Pages, Growing, Inv, Grown, Within, SizeIs;
      if newsz >= KERNBASE {
        return 0;
      }
      if newsz < oldsz {
        return oldsz;
      }
      StartGrowing(d, Pages(oldsz));
      var ok := GrowPages(d, oldsz, newsz, m, |free|);
      return if ok then newsz else 0;
    }

    // The loop of allocuvm().
    method GrowPages(d: nat, oldsz: nat, newsz: nat, ghost m0: Machine, ghost n: nat) returns (ok: bool)
      requires oldsz <= newsz < KERNBASE && SizeIs(m0, d, Pages(oldsz)) && Growing(m0, d, Pages(oldsz), Pages(oldsz), n)
      modifies this`mem, this`free, this`m
      ensures Ready() && d in m.dirs
      ensures ok ==> Grown(m0, m, d, Pages(oldsz), Pages(newsz))
      ensures !ok ==> Within(m0, m, d, USER, USER) && n < 2 * (Pages(newsz) - Pages(oldsz))
    {
      hide Pages, Growing, Inv, Holding, Grown, Within, Sees, SizeIs;
      PagesBound(newsz);
      PagesMonotone(oldsz, newsz);
      ghost var lo, hi := Pages(oldsz), Pages(newsz);
      var v := Pages(oldsz);
      while v * PGSIZE < newsz
        invariant lo <= v <= hi && Growing(m0, d, lo, v, n)
      {
        PagesAbove(newsz, v);
        ghost var u := m;
        SizeBeyond(m0, d, lo, v);
        GrowingGrown(m0, d, lo, v, n);
        var r := GrowNext(d, v, m0, lo, n);
        if !r.Added? {
          GiveBack(d, oldsz, newsz, r, m0, u, v);
          return false;
        }
        v := v + 1;
      }
      PagesAtMost(newsz, v);
      GrowingGrown(m0, d, lo, v, n);
      return true;
    }

    // One turn of the loop of freevm() over the page tables.
    method FreeTable(d: nat, i: nat, ghost m0: Machine)
      requires Inv(m0) && d in m0.dirs && Ready() && Undone(m0, m, d, i) && i < ENTRIES
      modifies this`mem, this`free, this`m
      ensures Ready() && Undone(m0, m, d, i + 1)
    {
      hide Pte, Inv, Undone;
      UndoneReady(m0, m, d, i);
      var e := mem[d].entries[i];
      if e.Present? {
        UndoneTable(m0, m, d, i);
        UndoneNext(m0, m, d, i, e.frame);
        Kfree(e.frame);
      } else {
        UndoneSkip(m0, m, d, i);
      }
    }

    // The loop of freevm() over the page tables, and the directory itself.
    method FreeTables(d: nat)
      requires Ready() && d in m.dirs && forall v: nat :: v < USER ==> Pte(m.mem, d, v).Absent?
      modifies this`mem, this`free, this`m
      ensures Ready() && Gone(old(m), m, d)
    {
      hide Pte, Inv, Undone, Gone, Disowned;
      ghost var m0 := m;
      StartUndoing(m0, d);
      UndoneReady(m0, Disowned(m0, d), d, 0);
      DisownedSame(m0, d);
      m := Disowned(m, d);
      var i := 0;
      while i < ENTRIES
        invariant 0 <= i <= ENTRIES && Ready() && Undone(m0, m, d, i)
      {
        FreeTable(d, i, m0);
        i := i + 1;
      }
      UndoneLast(m0, m, d);
      Kfree(d);
    }

    /** freevm(): a directory, its page tables and its user pages are all free again. */
    method FreeVm(d: nat)
      requires Ready() && d in m.dirs
      modifies this`mem, this`free, this`m
      ensures Ready() && Gone(old(m), m, d)
    {
      ghost var m0 := m;
      hide Inv, Gone, Cleared, Pte;
      var x := DeallocUvm(d, KERNBASE, 0);
      ghost var u := m;
      ClearedAll(m0, u, d);
      FreeTables(d);
      GoneAfter(m0, u, m, d);
    }

    // mappages() of r has mapped k pages.
    ghost predicate Ranging(m0: Machine, d: nat, r: Range, k: nat, n: nat)
      reads this
    {
      Ready() && d in m.dirs && Ranged(m0, m, d, r, k) && |free| + k >= n
    }

    method MapNext(d: nat, r: Range, k: nat, ghost m0: Machine, ghost n: nat) returns (ok: bool)
      requires Ranging(m0, d, r, k, n) && USER <= r.v + k < PAGES && Pte(m0.mem, d, r.v + k).Absent?
      modifies this`mem, this`free, this`m
      ensures Ranging(m0, d, r, if ok then k + 1 else k, n) && (!ok ==> n <= k)
    {
      ghost var u := m;
      hide Inv, Pte, Ranged, Maps, Quiet;
      RangedAbsent(m0, u, d, r, k);
      var x := MapPage(d, r.v + k, Present(r.frame + k, r.flags));
      if x.NoMemory? {
        return false;
      }
      MapsDirs(u, m, d, r.v + k, Present(r.frame + k, r.flags));
      RangedNext(m0, u, m, d, r, k);
      return true;
    }

    /** mappages() of a part of the kernel, which was not mapped before: it fails only without memory. */
    method MapRange(d: nat, r: Range) returns (ok: bool, ghost k: nat)
      requires Ready() && d in m.dirs && USER <= r.v && r.n >= 1 && r.v + r.n <= PAGES
      requires forall u: nat :: Covers(r, u) ==> u < PAGES && Pte(m.mem, d, u).Absent?
      modifies this`mem, this`free, this`m
      ensures Ready() && d in m.dirs && |free| + r.n >= |old(free)| && Ranged(old(m), m, d, r, k)
      ensures if ok then k == r.n else |old(free)| < r.n
    {
      hide Inv, Pte, Ranged;
      ghost var m0, n := m, |free|;
      RangedStart(m0, d, r);
      var j := 0;
      while j < r.n
        invariant 0 <= j <= r.n && Ranging(m0, d, r, j, n)
      {
        assert Covers(r, r.v + j);
        ok := MapNext(d, r, j, m0, n);
        if !ok {
          return false, j;
        }
        j := j + 1;
      }
      return true, j;
    }

    /**
      setupkvm(): a new directory that maps the kernel, part by part, and no user page.
      When memory runs out the free frames are again what they were.
     */
    method SetupKvm(kmap: seq<Range>) returns (r: Option<nat>)
      requires Ready() && KmapOk(kmap)
      modifies this`mem, this`free, this`m
      ensures Ready()
      ensures r.Some? ==> Building(old(m), m, r.value, kmap, |kmap|) && |free| + 1 + Total(kmap, |kmap|) >= |old(free)|
      ensures r.Some? ==> KernelMapped(m.mem, r.value, kmap) && forall u: nat :: u < USER ==> Pte(m.mem, r.value, u) == Absent
      ensures r.None? ==> Restored(old(m), m) && |old(free)| < 1 + Total(kmap, |kmap|)
    {
      ghost var m0, n := m, |free|;
      hide Inv, Building, Restored, Ranged, Gone, Pte, Apart, SameHeld, KernelMapped;
      if free == [] {
        RestoredSelf(m0);
        return None;
      }
      StartBuilding(m0, kmap);
      var got := Kalloc();
      var d := got.value;
      mem := mem[d := Table(Frames.Blank())];
      m := Adopted(m, d);
      BuildingReady(m0, m, d, kmap, 0);
      var i := 0;
      while i < |kmap|
        invariant 0 <= i <= |kmap| && Ready() && Building(m0, m, d, kmap, i) && |free| + 1 + Total(kmap, i) >= n
      {
        ghost var u := m;
        forall v: nat | Covers(kmap[i], v)
          ensures v < PAGES && Pte(m.mem, d, v).Absent?
        {
          BuildingAbsent(m0, m, d, kmap, i, v);
        }
        BuildingReady(m0, m, d, kmap, i);
        var ok;
        ghost var k;
        ok, k := MapRange(d, kmap[i]);
        if !ok {
          ghost var w := m;
          BuildingPartly(m0, u, w, d, kmap, i, k);
          TotalGrows(kmap, i + 1, |kmap|);
          FreeVm(d);
          BuildingGone(m0, w, m, d);
          return None;
        }
        BuildingNext(m0, u, m, d, kmap, i);
        i := i + 1;
      }
      BuildingMapped(m0, m, d, kmap);
      return Some(d);
    }

    // copyuvm() is at page v.
    ghost predicate Copying(m0: Machine, d: nat, c: nat, v: nat, n: nat, kmap: seq<Range>)
      reads this
    {
      Ready() && Copied(m0, m, d, c, v, kmap) && |free| + 2 * v >= n
    }

    // One turn of the loop of copyuvm().
    method CopyNext(d: nat, c: nat, v: nat, ghost m0: Machine, ghost n: nat, ghost kmap: seq<Range>) returns (r: AddResult)
      requires Inv(m0) && d in m0.dirs && Copying(m0, d, c, v, n, kmap) && v < USER && Sees(m0.mem, d, v).Cell?
      modifies this`mem, this`free, this`m
      ensures Ready() && c in m.dirs
      ensures r.Added? ==> Copying(m0, d, c, v + 1, n, kmap)
      ensures !r.Added? ==> n <= 2 * v + 1
      ensures r.NoFrame? ==> m == old(m)
      ensures r.NoTable? ==> Holding(old(m), m, c, r.f) && r.f in m.owner && m.owner[r.f] == Held
    {
      ghost var u := m;
      CopiedSource(m0, u, d, c, v, kmap);
      CopiedAbsent(m0, u, d, c, v, kmap);
      PteInTable(u, d, v);
      var t := Walk(d, v, false);
      assert t.Some?;
      var pte := mem[t.value].entries[v % ENTRIES];
      assert pte == Pte(u.mem, d, v);
      var bytes := mem[pte.frame].bytes;
      assert Sees(m0.mem, d, v) == Cell(bytes, pte.flags);
      hide Inv, Copied, Holding, Pte, Within, Sees, Quiet;
      r := AddPage(c, v, bytes, pte.flags);
      if r.Added? {
        CopiedNext(m0, u, m, d, c, v, kmap);
      }
    }

    // copyuvm() gives up: what the child has got goes back.
    method Uncopy(c: nat, r: AddResult, ghost m0: Machine, ghost u: Machine, ghost d: nat, ghost v: nat, ghost kmap: seq<Range>)
      requires Inv(m0) && Ready() && c in m.dirs && Copied(m0, u, d, c, v, kmap) && !r.Added?
      requires r.NoFrame? ==> m == u
      requires r.NoTable? ==> Holding(u, m, c, r.f) && r.f in m.owner && m.owner[r.f] == Held
      modifies this`mem, this`free, this`m
      ensures Ready() && Restored(m0, m)
    {
      hide Inv, Copied, Holding, Gone, Restored, Apart, SameHeld;
      CopiedParts(m0, u, d, c, v, kmap);
      if r.NoTable? {
        HoldingBack(m0, u, m, c, r.f);
        Kfree(r.f);
      }
      ghost var w := m;
      FreeVm(c);
      BuildingGone(m0, w, m, c);
    }

    /**
      copyuvm(): a directory for a child that maps the kernel and shows the parent's
      pages, bytes and flags, on frames of its own; its panics are out of reach.  When memory runs
      out the free frames are again what they were.
     */
    method CopyUvm(d: nat, sz: nat, kmap: seq<Range>) returns (r: Option<nat>)
      requires Ready() && d in m.dirs && KmapOk(kmap) && sz < KERNBASE && SizeIs(m, d, Pages(sz))
      modifies this`mem, this`free, this`m
      ensures Ready()
      ensures r.Some? ==> Copied(old(m), m, d, r.value, Pages(sz), kmap) && KernelMapped(m.mem, r.value, kmap)
      ensures r.None? ==> Restored(old(m), m) && |old(free)| < 1 + Total(kmap, |kmap|) + 2 * Pages(sz)
    {
      hide Inv, Copied, Holding, Restored, Building, SizeIs, Pages, Sees, KernelMapped, Pte;
      ghost var m0, n := m, |free|;
      var got := SetupKvm(kmap);
      if got.None? {
        return None;
      }
      var c := got.value;
      StartCopied(m0, m, d, c, kmap);
      PagesBound(sz);
      r := CopyPages(d, c, sz, m0, |free|, kmap);
      if r.Some? {
        CopiedParts(m0, m, d, c, Pages(sz), kmap);
      }
    }

    // The loop of copyuvm().
    method CopyPages(d: nat, c: nat, sz: nat, ghost m0: Machine, ghost n: nat, ghost kmap: seq<Range>) returns (r: Option<nat>)
      requires Inv(m0) && d in m0.dirs && SizeIs(m0, d, Pages(sz)) && Pages(sz) <= USER && Copying(m0, d, c, 0, n, kmap)
      modifies this`mem, this`free, this`m
      ensures Ready()
      ensures r.Some? ==> r.value == c && Copied(m0, m, d, c, Pages(sz), kmap)
      ensures r.None? ==> Restored(m0, m) && n < 2 * Pages(sz)
    {
      hide Inv, Copied, Holding, Restored, SizeIs, Pages, Sees, Copying;
      ghost var hi := Pages(sz);
      var v := 0;
      while v * PGSIZE < sz
        invariant 0 <= v <= hi && Copying(m0, d, c, v, n, kmap)
      {
        PagesAbove(sz, v);
        SizeThere(m0, d, hi, v);
        ghost var u := m;
        CopyingCopied(m0, d, c, v, n, kmap);
        var x := CopyNext(d, c, v, m0, n, kmap);
        if !x.Added? {
          Uncopy(c, x, m0, u, d, v, kmap);
          return None;
        }
        v := v + 1;
      }
      PagesAtMost(sz, v);
      CopyingCopied(m0, d, c, v, n, kmap);
      return Some(c);
    }

    lemma CopyingCopied(m0: Machine, d: nat, c: nat, v: nat, n: nat, kmap: seq<Range>)
      requires Copying(m0, d, c, v, n, kmap)
      ensures Ready() && Copied(m0, m, d, c, v, kmap)
    {
      hide Inv, Copied;
    }
  }
}
