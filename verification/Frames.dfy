/**
  Physical page frames and who has them: the free list, page directories, page
  tables and user pages (kalloc.c, vm.c).  Frames are known by number.
 */
module Frames {
  import opened FsBytes

  const ENTRIES := 1024
  const PAGES := 0x10_0000        // pages of the 32-bit address space
  const USER := 0x8_0000          // pages below KERNBASE

  // A directory or page-table entry.
  datatype Entry = Absent | Present(frame: nat, flags: nat)

  type Entries = s: seq<Entry> | |s| == ENTRIES witness seq(ENTRIES, i => Absent)

  // What a frame holds.
  datatype Frame = Junk | Table(entries: Entries) | Data(bytes: Bytes)

  // Who has a frame: the free list, at index i; a directory; table x of directory d;
  // user page v of directory d; the code that is at work on it.
  datatype Place = Listed(i: nat) | Dir | Tab(d: nat, x: nat) | User(d: nat, v: nat) | Held

  datatype Machine = Machine(mem: map<nat, Frame>, free: seq<nat>, owner: map<nat, Place>, dirs: set<nat>)

  function Blank(): (s: Entries)
    ensures forall x :: 0 <= x < ENTRIES ==> s[x] == Absent
  {
    seq(ENTRIES, i => Absent)
  }

  function Slot(mem: map<nat, Frame>, t: nat, x: nat): (e: Entry)
    requires x < ENTRIES
  {
    if t in mem && mem[t].Table? then mem[t].entries[x] else Absent
  }

  // The entry of page v, through the directory d.
  function Pte(mem: map<nat, Frame>, d: nat, v: nat): (e: Entry)
    requires v < PAGES
  {
    var pde := Slot(mem, d, v / ENTRIES);
    if pde.Absent? then Absent else Slot(mem, pde.frame, v % ENTRIES)
  }

  ghost predicate ListOk(m: Machine, i: nat)
    requires i < |m.free|
  {
    m.free[i] in m.owner && m.owner[m.free[i]] == Listed(i)
  }

  ghost predicate DirOk(m: Machine, d: nat) {
    d in m.owner && m.owner[d] == Dir && d in m.mem && m.mem[d].Table?
  }

  ghost predicate TabOk(m: Machine, d: nat, x: nat)
    requires x < ENTRIES
  {
    var e := Slot(m.mem, d, x);
    e.Present? ==> e.frame in m.owner && m.owner[e.frame] == Tab(d, x) && e.frame in m.mem && m.mem[e.frame].Table?
  }

  ghost predicate UserOk(m: Machine, d: nat, v: nat)
    requires v < USER
  {
    var e := Pte(m.mem, d, v);
    e.Present? ==> e.frame in m.owner && m.owner[e.frame] == User(d, v) && e.frame in m.mem && m.mem[e.frame].Data?
  }

  ghost predicate OwnerOk(m: Machine, f: nat)
    requires f in m.owner
  {
    match m.owner[f]
    case Listed(i) => i < |m.free| && m.free[i] == f
    case Dir => f in m.dirs
    case Tab(d, x) => d in m.dirs && x < ENTRIES && Slot(m.mem, d, x).Present? && Slot(m.mem, d, x).frame == f
    case User(d, v) => d in m.dirs && v < USER && Pte(m.mem, d, v).Present? && Pte(m.mem, d, v).frame == f
    case Held => true
  }

  /** Every frame has exactly one owner, and every stored frame number is the owner's. */
  ghost predicate Inv(m: Machine) {
    && m.mem.Keys == m.owner.Keys
    && (forall i: nat :: i < |m.free| ==> ListOk(m, i))
    && (forall d :: d in m.dirs ==> DirOk(m, d))
    && (forall d, x: nat :: d in m.dirs && x < ENTRIES ==> TabOk(m, d, x))
    && (forall d, v: nat :: d in m.dirs && v < USER ==> UserOk(m, d, v))
    && forall f :: f in m.owner ==> OwnerOk(m, f)
  }

  // f belongs to another directory than d.
  predicate Foreign(p: Place, f: nat, d: nat) {
    (p.Dir? && f != d) || (p.Tab? && p.d != d) || (p.User? && p.d != d)
  }

  // What belongs to other directories than d is as it was.
  ghost predicate Apart(m: Machine, w: Machine, d: nat) {
    && w.owner.Keys == m.owner.Keys && w.dirs - {d} == m.dirs - {d}
    && forall f :: f in m.owner && (Foreign(m.owner[f], f, d) || Foreign(w.owner[f], f, d)) ==>
         w.owner[f] == m.owner[f] && f in m.mem && f in w.mem && w.mem[f] == m.mem[f]
  }

  lemma ApartSelf(m: Machine, d: nat)
    requires m.mem.Keys == m.owner.Keys
    ensures Apart(m, m, d)
  {
  }

  lemma ApartTrans(m: Machine, u: Machine, w: Machine, d: nat)
    requires Apart(m, u, d) && Apart(u, w, d)
    ensures Apart(m, w, d)
  {
    hide Foreign;
  }

  // kalloc(): the top of the free list.
  function Popped(m: Machine): (w: Machine)
    requires |m.free| > 0
  {
    var n := |m.free| - 1;
    m.(free := m.free[..n], owner := m.owner[m.free[n] := Held])
  }

  // kfree()
  function Pushed(m: Machine, f: nat): (w: Machine) {
    Machine(m.mem[f := Junk], m.free + [f], m.owner[f := Listed(|m.free|)], m.dirs)
  }

  lemma PoppedInv(m: Machine)
    requires Inv(m) && |m.free| > 0
    ensures Inv(Popped(m)) && m.free[|m.free| - 1] in m.owner
  {
    var w, n := Popped(m), |m.free| - 1;
    var f := m.free[n];
    assert ListOk(m, n);
    hide Slot, Pte;
    forall i: nat | i < n
      ensures ListOk(w, i)
    {
      assert ListOk(m, i);
    }
    forall d | d in w.dirs
      ensures DirOk(w, d)
    {
      assert DirOk(m, d);
    }
    forall d, x: nat | d in w.dirs && x < ENTRIES
      ensures TabOk(w, d, x)
    {
      assert TabOk(m, d, x);
    }
    forall d, v: nat | d in w.dirs && v < USER
      ensures UserOk(w, d, v)
    {
      assert UserOk(m, d, v);
    }
    forall g | g in w.owner
      ensures OwnerOk(w, g)
    {
      assert OwnerOk(m, g);
    }
  }

  // A frame that somebody is at work on gets new contents.
  function Written(m: Machine, f: nat, content: Frame): (w: Machine) {
    m.(mem := m.mem[f := content])
  }

  lemma HeldSlot(m: Machine, f: nat, content: Frame, d: nat, x: nat)
    requires Inv(m) && f in m.owner && m.owner[f] == Held && d in m.dirs && x < ENTRIES
    ensures Slot(Written(m, f, content).mem, d, x) == Slot(m.mem, d, x)
  {
    assert DirOk(m, d);
  }

  lemma HeldPte(m: Machine, f: nat, content: Frame, d: nat, v: nat)
    requires Inv(m) && f in m.owner && m.owner[f] == Held && d in m.dirs && v < PAGES
    ensures Pte(Written(m, f, content).mem, d, v) == Pte(m.mem, d, v)
  {
    HeldSlot(m, f, content, d, v / ENTRIES);
    assert TabOk(m, d, v / ENTRIES);
  }

  lemma WrittenInv(m: Machine, f: nat, content: Frame)
    requires Inv(m) && f in m.owner && m.owner[f] == Held
    ensures Inv(Written(m, f, content))
  {
    var w := Written(m, f, content);
    hide Slot, Pte;
    forall i: nat | i < |w.free|
      ensures ListOk(w, i)
    {
      assert ListOk(m, i);
    }
    forall c | c in w.dirs
      ensures DirOk(w, c)
    {
      assert DirOk(m, c);
    }
    forall c, y: nat | c in w.dirs && y < ENTRIES
      ensures TabOk(w, c, y)
    {
      HeldSlot(m, f, content, c, y);
      assert TabOk(m, c, y);
    }
    forall c, u: nat | c in w.dirs && u < USER
      ensures UserOk(w, c, u)
    {
      HeldPte(m, f, content, c, u);
      assert UserOk(m, c, u);
    }
    forall g | g in w.owner
      ensures OwnerOk(w, g)
    {
      assert OwnerOk(m, g);
      match m.owner[g] {
        case Tab(c, y) => HeldSlot(m, f, content, c, y);
        case User(c, u) => HeldPte(m, f, content, c, u);
        case _ =>
      }
    }
  }

  lemma PushedInv(m: Machine, f: nat)
    requires Inv(m) && f in m.owner && m.owner[f] == Held
    ensures Inv(Pushed(m, f))
  {
    var u0, w := Written(m, f, Junk), Pushed(m, f);
    WrittenInv(m, f, Junk);
    hide Slot, Pte;
    forall i: nat | i < |w.free|
      ensures ListOk(w, i)
    {
      if i < |m.free| {
        assert ListOk(u0, i);
      }
    }
    forall c | c in w.dirs
      ensures DirOk(w, c)
    {
      assert DirOk(u0, c);
    }
    forall c, y: nat | c in w.dirs && y < ENTRIES
      ensures TabOk(w, c, y)
    {
      assert TabOk(u0, c, y);
    }
    forall c, u: nat | c in w.dirs && u < USER
      ensures UserOk(w, c, u)
    {
      assert UserOk(u0, c, u);
    }
    forall g | g in w.owner
      ensures OwnerOk(w, g)
    {
      assert OwnerOk(u0, g);
    }
  }

  // Entry x of table t becomes e.
  function Put(mem: map<nat, Frame>, t: nat, x: nat, e: Entry): (r: map<nat, Frame>)
    requires t in mem && mem[t].Table? && x < ENTRIES
  {
    mem[t := Table(mem[t].entries[x := e])]
  }

  lemma PutSlot(mem: map<nat, Frame>, t: nat, x: nat, e: Entry, c: nat, y: nat)
    requires t in mem && mem[t].Table? && x < ENTRIES && y < ENTRIES
    ensures Slot(Put(mem, t, x, e), c, y) == if c == t && y == x then e else Slot(mem, c, y)
  {
  }

  // The frame t, held so far, becomes table x of directory d.
  function NewTable(m: Machine, d: nat, x: nat, t: nat, flags: nat): (w: Machine)
    requires d in m.mem && m.mem[d].Table? && x < ENTRIES && d != t
  {
    m.(mem := Put(m.mem[t := Table(Blank())], d, x, Present(t, flags)), owner := m.owner[t := Tab(d, x)])
  }

  lemma NewTableSlot(m: Machine, d: nat, x: nat, t: nat, flags: nat, c: nat, y: nat)
    requires Inv(m) && d in m.dirs && x < ENTRIES && t in m.owner && m.owner[t] == Held && y < ENTRIES && c in m.dirs
    ensures d in m.mem && m.mem[d].Table? && d != t
    ensures Slot(NewTable(m, d, x, t, flags).mem, c, y) == if c == d && y == x then Present(t, flags) else Slot(m.mem, c, y)
  {
    assert DirOk(m, d) && DirOk(m, c);
    PutSlot(m.mem[t := Table(Blank())], d, x, Present(t, flags), c, y);
  }

  // A new table maps no page, like the missing one before it.
  lemma NewTablePte(m: Machine, d: nat, x: nat, t: nat, flags: nat, c: nat, v: nat)
    requires Inv(m) && d in m.dirs && x < ENTRIES && t in m.owner && m.owner[t] == Held && Slot(m.mem, d, x).Absent?
    requires c in m.dirs && v < PAGES
    ensures d in m.mem && m.mem[d].Table? && d != t
    ensures Pte(NewTable(m, d, x, t, flags).mem, c, v) == Pte(m.mem, c, v)
  {
    NewTableSlot(m, d, x, t, flags, c, v / ENTRIES);
    assert TabOk(m, c, v / ENTRIES) && DirOk(m, d);
    hide Blank;
  }

  lemma NewTableInv(m: Machine, d: nat, x: nat, t: nat, flags: nat)
    requires Inv(m) && d in m.dirs && x < ENTRIES && t in m.owner && m.owner[t] == Held && Slot(m.mem, d, x).Absent?
    ensures d in m.mem && m.mem[d].Table? && d != t && Inv(NewTable(m, d, x, t, flags))
  {
    NewTableSlot(m, d, x, t, flags, d, x);
    var w := NewTable(m, d, x, t, flags);
    assert TabOk(m, d, x);
    hide Slot, Pte;
    forall i: nat | i < |w.free|
      ensures ListOk(w, i)
    {
      assert ListOk(m, i);
    }
    forall c | c in w.dirs
      ensures DirOk(w, c)
    {
      assert DirOk(m, c);
    }
    forall c, y: nat | c in w.dirs && y < ENTRIES
      ensures TabOk(w, c, y)
    {
      NewTableSlot(m, d, x, t, flags, c, y);
      assert TabOk(m, c, y);
    }
    forall c, u: nat | c in w.dirs && u < USER
      ensures UserOk(w, c, u)
    {
      NewTablePte(m, d, x, t, flags, c, u);
      assert UserOk(m, c, u);
    }
    forall g | g in w.owner
      ensures OwnerOk(w, g)
    {
      assert OwnerOk(m, g);
      match m.owner[g] {
        case Tab(c, y) => NewTableSlot(m, d, x, t, flags, c, y);
        case User(c, u) => NewTablePte(m, d, x, t, flags, c, u);
        case _ =>
      }
    }
  }

  // The table that page v of directory d goes through.
  ghost predicate Tabled(m: Machine, d: nat, v: nat)
    requires v < PAGES
  {
    Slot(m.mem, d, v / ENTRIES).Present?
  }

  function TableOf(m: Machine, d: nat, v: nat): (t: nat)
    requires v < PAGES
  {
    var e := Slot(m.mem, d, v / ENTRIES);
    if e.Present? then e.frame else 0
  }

  // The entry of page v of directory d becomes e; own says who has the frame of e, or had it.
  function NewEntry(m: Machine, d: nat, v: nat, e: Entry, f: nat, own: Place): (w: Machine)
    requires v < PAGES && TableOf(m, d, v) in m.mem && m.mem[TableOf(m, d, v)].Table?
  {
    m.(mem := Put(m.mem, TableOf(m, d, v), v % ENTRIES, e), owner := if v < USER then m.owner[f := own] else m.owner)
  }

  lemma TableThere(m: Machine, d: nat, v: nat)
    requires Inv(m) && d in m.dirs && v < PAGES && Tabled(m, d, v)
    ensures TableOf(m, d, v) in m.owner && m.owner[TableOf(m, d, v)] == Tab(d, v / ENTRIES)
    ensures TableOf(m, d, v) in m.mem && m.mem[TableOf(m, d, v)].Table?
  {
    assert TabOk(m, d, v / ENTRIES);
  }

  lemma NewEntrySlot(m: Machine, d: nat, v: nat, e: Entry, f: nat, own: Place, c: nat, y: nat)
    requires Inv(m) && d in m.dirs && v < PAGES && Tabled(m, d, v) && c in m.dirs && y < ENTRIES
    ensures TableOf(m, d, v) in m.mem && m.mem[TableOf(m, d, v)].Table?
    ensures Slot(NewEntry(m, d, v, e, f, own).mem, c, y) == Slot(m.mem, c, y)
  {
    TableThere(m, d, v);
    assert DirOk(m, c);
    PutSlot(m.mem, TableOf(m, d, v), v % ENTRIES, e, c, y);
  }

  lemma NewEntryPte(m: Machine, d: nat, v: nat, e: Entry, f: nat, own: Place, c: nat, u: nat)
    requires Inv(m) && d in m.dirs && v < PAGES && Tabled(m, d, v) && c in m.dirs && u < PAGES
    ensures TableOf(m, d, v) in m.mem && m.mem[TableOf(m, d, v)].Table?
    ensures Pte(NewEntry(m, d, v, e, f, own).mem, c, u) == if c == d && u == v then e else Pte(m.mem, c, u)
  {
    TableThere(m, d, v);
    NewEntrySlot(m, d, v, e, f, own, c, u / ENTRIES);
    assert TabOk(m, c, u / ENTRIES);
    var t := Slot(m.mem, c, u / ENTRIES);
    if t.Present? {
      PutSlot(m.mem, TableOf(m, d, v), v % ENTRIES, e, t.frame, u % ENTRIES);
    }
  }

  // A page of directory d is mapped: a user page to a frame held so far, a kernel page to any.
  lemma MapInv(m: Machine, d: nat, v: nat, e: Entry)
    requires Inv(m) && d in m.dirs && v < PAGES && Tabled(m, d, v) && Pte(m.mem, d, v).Absent? && e.Present?
    requires v < USER ==> e.frame in m.owner && m.owner[e.frame] == Held && m.mem[e.frame].Data?
    ensures TableOf(m, d, v) in m.mem && m.mem[TableOf(m, d, v)].Table?
    ensures Inv(NewEntry(m, d, v, e, e.frame, User(d, v)))
  {
    TableThere(m, d, v);
    var w := NewEntry(m, d, v, e, e.frame, User(d, v));
    hide Slot, Pte, TableOf, Tabled;
    forall i: nat | i < |w.free|
      ensures ListOk(w, i)
    {
      assert ListOk(m, i);
    }
    forall c | c in w.dirs
      ensures DirOk(w, c)
    {
      assert DirOk(m, c);
    }
    forall c, y: nat | c in w.dirs && y < ENTRIES
      ensures TabOk(w, c, y)
    {
      NewEntrySlot(m, d, v, e, e.frame, User(d, v), c, y);
      assert TabOk(m, c, y);
    }
    forall c, u: nat | c in w.dirs && u < USER
      ensures UserOk(w, c, u)
    {
      NewEntryPte(m, d, v, e, e.frame, User(d, v), c, u);
      assert UserOk(m, c, u);
    }
    forall g | g in w.owner
      ensures OwnerOk(w, g)
    {
      assert OwnerOk(m, g);
      match w.owner[g] {
        case Tab(c, y) => NewEntrySlot(m, d, v, e, e.frame, User(d, v), c, y);
        case User(c, u) => NewEntryPte(m, d, v, e, e.frame, User(d, v), c, u);
        case _ =>
      }
    }
  }

  // A user page of directory d is unmapped, and its frame is held.
  lemma UnmapInv(m: Machine, d: nat, v: nat)
    requires Inv(m) && d in m.dirs && v < USER && Pte(m.mem, d, v).Present?
    ensures Tabled(m, d, v) && TableOf(m, d, v) in m.mem && m.mem[TableOf(m, d, v)].Table?
    ensures Pte(m.mem, d, v).frame in m.owner && m.owner[Pte(m.mem, d, v).frame] == User(d, v)
    ensures Inv(NewEntry(m, d, v, Absent, Pte(m.mem, d, v).frame, Held))
  {
    TableThere(m, d, v);
    assert UserOk(m, d, v);
    var f := Pte(m.mem, d, v).frame;
    var w := NewEntry(m, d, v, Absent, f, Held);
    hide Slot, Pte, TableOf, Tabled;
    forall i: nat | i < |w.free|
      ensures ListOk(w, i)
    {
      assert ListOk(m, i);
    }
    forall c | c in w.dirs
      ensures DirOk(w, c)
    {
      assert DirOk(m, c);
    }
    forall c, y: nat | c in w.dirs && y < ENTRIES
      ensures TabOk(w, c, y)
    {
      NewEntrySlot(m, d, v, Absent, f, Held, c, y);
      assert TabOk(m, c, y);
    }
    forall c, u: nat | c in w.dirs && u < USER
      ensures UserOk(w, c, u)
    {
      NewEntryPte(m, d, v, Absent, f, Held, c, u);
      assert UserOk(m, c, u);
    }
    forall g | g in w.owner
      ensures OwnerOk(w, g)
    {
      assert OwnerOk(m, g);
      match w.owner[g] {
        case Tab(c, y) => NewEntrySlot(m, d, v, Absent, f, Held, c, y);
        case User(c, u) => NewEntryPte(m, d, v, Absent, f, Held, c, u);
        case _ =>
      }
    }
  }

  // The frame d, held so far, becomes an empty directory.
  function Adopted(m: Machine, d: nat): (w: Machine) {
    m.(mem := m.mem[d := Table(Blank())], owner := m.owner[d := Dir], dirs := m.dirs + {d})
  }

  lemma AdoptedNew(m: Machine, d: nat, x: nat)
    requires x < ENTRIES
    ensures Slot(Adopted(m, d).mem, d, x) == Absent
  {
  }

  lemma NotADir(m: Machine, d: nat)
    requires Inv(m) && d in m.owner && m.owner[d] == Held
    ensures d !in m.dirs
  {
    assert d in m.dirs ==> DirOk(m, d);
  }

  lemma AdoptedInv(m: Machine, d: nat)
    requires Inv(m) && d in m.owner && m.owner[d] == Held
    ensures Inv(Adopted(m, d)) && forall v: nat :: v < PAGES ==> Pte(Adopted(m, d).mem, d, v) == Absent
  {
    NotADir(m, d);
    var u0, w := Written(m, d, Table(Blank())), Adopted(m, d);
    WrittenInv(m, d, Table(Blank()));
    forall v: nat | v < PAGES
      ensures Pte(w.mem, d, v) == Absent
    {
      AdoptedNew(m, d, v / ENTRIES);
    }
    forall i: nat | i < |w.free|
      ensures ListOk(w, i)
    {
      assert ListOk(u0, i);
    }
    forall c | c in w.dirs
      ensures DirOk(w, c)
    {
      assert c != d ==> DirOk(u0, c);
    }
    forall c, y: nat | c in w.dirs && y < ENTRIES
      ensures TabOk(w, c, y)
    {
      if c == d {
        AdoptedNew(m, d, y);
      } else {
        assert TabOk(u0, c, y);
      }
    }
    forall c, u: nat | c in w.dirs && u < USER
      ensures UserOk(w, c, u)
    {
      if c != d {
        assert UserOk(u0, c, u);
      }
    }
    forall g | g in w.owner
      ensures OwnerOk(w, g)
    {
      assert OwnerOk(u0, g);
    }
  }

  predicate Of(p: Place, f: nat, d: nat) {
    (p.Dir? && f == d) || (p.Tab? && p.d == d)
  }

  // A directory without user pages is given up: its frames are held.
  function Disowned(m: Machine, d: nat): (w: Machine) {
    m.(owner := map f | f in m.owner :: if Of(m.owner[f], f, d) then Held else m.owner[f], dirs := m.dirs - {d})
  }

  lemma DisownedInv(m: Machine, d: nat)
    requires Inv(m) && d in m.dirs && forall v: nat :: v < USER ==> Pte(m.mem, d, v).Absent?
    ensures Inv(Disowned(m, d))
  {
    var w := Disowned(m, d);
    hide Slot, Pte;
    forall i: nat | i < |w.free|
      ensures ListOk(w, i)
    {
      assert ListOk(m, i);
    }
    forall c | c in w.dirs
      ensures DirOk(w, c)
    {
      assert DirOk(m, c);
    }
    forall c, y: nat | c in w.dirs && y < ENTRIES
      ensures TabOk(w, c, y)
    {
      assert TabOk(m, c, y);
    }
    forall c, u: nat | c in w.dirs && u < USER
      ensures UserOk(w, c, u)
    {
      assert UserOk(m, c, u);
    }
    forall g | g in w.owner
      ensures OwnerOk(w, g)
    {
      assert OwnerOk(m, g);
    }
  }

  // S is what somebody is at work on.
  ghost predicate OnlyHeld(m: Machine, S: set<nat>) {
    forall f :: f in m.owner ==> (m.owner[f] == Held <==> f in S)
  }

  lemma PoppedApart(m: Machine, d: nat)
    requires Inv(m) && |m.free| > 0
    ensures Apart(m, Popped(m), d)
  {
    assert ListOk(m, |m.free| - 1);
  }

  lemma WrittenApart(m: Machine, f: nat, content: Frame, d: nat)
    requires Inv(m) && f in m.owner && m.owner[f] == Held
    ensures Apart(m, Written(m, f, content), d)
  {
  }

  lemma PushedApart(m: Machine, f: nat, d: nat)
    requires Inv(m) && f in m.owner && m.owner[f] == Held
    ensures Apart(m, Pushed(m, f), d)
  {
  }

  lemma NewTableApart(m: Machine, d: nat, x: nat, t: nat, flags: nat)
    requires Inv(m) && d in m.dirs && x < ENTRIES && t in m.owner && m.owner[t] == Held
    ensures d in m.mem && m.mem[d].Table? && d != t && Apart(m, NewTable(m, d, x, t, flags), d)
  {
    assert DirOk(m, d);
  }

  lemma NewEntryApart(m: Machine, d: nat, v: nat, e: Entry, f: nat, own: Place)
    requires Inv(m) && d in m.dirs && v < PAGES && Tabled(m, d, v)
    requires v < USER ==> f in m.owner && (m.owner[f] == Held || m.owner[f] == User(d, v)) && (own == Held || own == User(d, v))
    ensures TableOf(m, d, v) in m.mem && m.mem[TableOf(m, d, v)].Table? && Apart(m, NewEntry(m, d, v, e, f, own), d)
  {
    TableThere(m, d, v);
  }

  lemma AdoptedApart(m: Machine, d: nat)
    requires Inv(m) && d in m.owner && m.owner[d] == Held
    ensures Apart(m, Adopted(m, d), d)
  {
    NotADir(m, d);
  }

  lemma DisownedApart(m: Machine, d: nat)
    requires Inv(m)
    ensures Apart(m, Disowned(m, d), d)
  {
  }

  lemma ListedFree(m: Machine, f: nat)
    requires Inv(m) && f in m.owner
    ensures f in m.free <==> m.owner[f].Listed?
  {
    if f in m.free {
      var i :| 0 <= i < |m.free| && m.free[i] == f;
      assert ListOk(m, i);
    }
    assert OwnerOk(m, f);
  }

  // The directory a frame belongs to.
  function DirectoryOf(p: Place, f: nat): (d: nat) {
    if p.Tab? || p.User? then p.d else f
  }

  /** Conservation: when nobody is at work, every frame is free or belongs to a live directory, never both. */
  lemma Conserved(m: Machine, f: nat)
    requires Inv(m) && OnlyHeld(m, {}) && f in m.owner
    ensures (f in m.free) != (DirectoryOf(m.owner[f], f) in m.dirs && !m.owner[f].Listed?)
  {
    ListedFree(m, f);
    assert OwnerOk(m, f);
  }

  /** No frame is the page of two addresses, in one directory or in two, and no mapped frame is free. */
  lemma OneMapping(m: Machine, c: nat, u: nat, d: nat, v: nat)
    requires Inv(m) && c in m.dirs && d in m.dirs && u < USER && v < USER && (c != d || u != v)
    requires Pte(m.mem, c, u).Present? && Pte(m.mem, d, v).Present?
    ensures Pte(m.mem, c, u).frame != Pte(m.mem, d, v).frame && Pte(m.mem, c, u).frame !in m.free
  {
    assert UserOk(m, c, u) && UserOk(m, d, v);
    ListedFree(m, Pte(m.mem, c, u).frame);
  }

  // What user page u of directory c shows: its bytes and flags.
  datatype Cell = Nothing | Cell(bytes: Bytes, flags: nat)

  function Sees(mem: map<nat, Frame>, c: nat, u: nat): (r: Cell)
    requires u < PAGES
  {
    var e := Pte(mem, c, u);
    if e.Present? && e.frame in mem && mem[e.frame].Data? then Cell(mem[e.frame].bytes, e.flags) else Nothing
  }

  lemma SeesMapped(m: Machine, c: nat, u: nat)
    requires Inv(m) && c in m.dirs && u < USER
    ensures Sees(m.mem, c, u).Cell? <==> Pte(m.mem, c, u).Present?
  {
    assert UserOk(m, c, u);
  }

  // The other directories show what they showed.
  lemma ApartSlot(m: Machine, w: Machine, d: nat, c: nat, x: nat)
    requires Inv(m) && Inv(w) && Apart(m, w, d) && c in m.dirs && c != d && x < ENTRIES
    ensures c in w.dirs && Slot(w.mem, c, x) == Slot(m.mem, c, x)
  {
    assert c in m.dirs - {d};
    assert DirOk(m, c);
  }

  lemma ApartPte(m: Machine, w: Machine, d: nat, c: nat, u: nat)
    requires Inv(m) && Inv(w) && Apart(m, w, d) && c in m.dirs && c != d && u < PAGES
    ensures c in w.dirs && Pte(w.mem, c, u) == Pte(m.mem, c, u)
  {
    ApartSlot(m, w, d, c, u / ENTRIES);
    assert TabOk(m, c, u / ENTRIES);
  }

  /** Work on directory d changes nothing that another directory shows. */
  lemma ApartSees(m: Machine, w: Machine, d: nat, c: nat, u: nat)
    requires Inv(m) && Inv(w) && Apart(m, w, d) && c in m.dirs && c != d && u < USER
    ensures c in w.dirs && Sees(w.mem, c, u) == Sees(m.mem, c, u)
  {
    ApartPte(m, w, d, c, u);
    assert UserOk(m, c, u);
    hide Pte;
  }

  // Directory d shows in w what it showed in m, but for page v.
  ghost predicate Shows(m: Machine, w: Machine, d: nat, v: nat) {
    forall u: nat :: u < USER && u != v ==> Sees(w.mem, d, u) == Sees(m.mem, d, u)
  }

  lemma WrittenShows(m: Machine, f: nat, content: Frame, d: nat)
    requires Inv(m) && f in m.owner && m.owner[f] == Held && d in m.dirs
    ensures Shows(m, Written(m, f, content), d, USER)
  {
    forall u: nat | u < USER
      ensures Sees(Written(m, f, content).mem, d, u) == Sees(m.mem, d, u)
    {
      HeldPte(m, f, content, d, u);
      assert UserOk(m, d, u);
      hide Pte;
    }
  }

  lemma PushedShows(m: Machine, f: nat, d: nat)
    requires Inv(m) && f in m.owner && m.owner[f] == Held && d in m.dirs
    ensures Shows(m, Pushed(m, f), d, USER)
  {
    WrittenShows(m, f, Junk, d);
    hide Sees;
  }

  lemma NewTableShows(m: Machine, d: nat, x: nat, t: nat, flags: nat)
    requires Inv(m) && d in m.dirs && x < ENTRIES && t in m.owner && m.owner[t] == Held && Slot(m.mem, d, x).Absent?
    ensures d in m.mem && m.mem[d].Table? && d != t && Shows(m, NewTable(m, d, x, t, flags), d, USER)
  {
    NewTableSlot(m, d, x, t, flags, d, x);
    assert DirOk(m, d);
    forall u: nat | u < USER
      ensures Sees(NewTable(m, d, x, t, flags).mem, d, u) == Sees(m.mem, d, u)
    {
      NewTablePte(m, d, x, t, flags, d, u);
      assert UserOk(m, d, u);
      hide Pte, Slot;
    }
  }

  lemma NewEntryShows(m: Machine, d: nat, v: nat, e: Entry, f: nat, own: Place)
    requires Inv(m) && d in m.dirs && v < PAGES && Tabled(m, d, v)
    ensures TableOf(m, d, v) in m.mem && m.mem[TableOf(m, d, v)].Table?
    ensures Shows(m, NewEntry(m, d, v, e, f, own), d, v)
  {
    TableThere(m, d, v);
    forall u: nat | u < USER && u != v
      ensures Sees(NewEntry(m, d, v, e, f, own).mem, d, u) == Sees(m.mem, d, u)
    {
      NewEntryPte(m, d, v, e, f, own, d, u);
      assert UserOk(m, d, u);
      hide Pte, Slot;
    }
  }
}
