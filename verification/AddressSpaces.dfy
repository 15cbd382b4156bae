/**
  Two-level page tables over a table of counted physical frames: the state that
  src/kernel/memory.c keeps, as a value, and the invariant of that state.
 */
module AddressSpaces {
  const PAGE_SIZE := 0x1000
  const PAGE_ENTRIES := 1024           // entries in one page table
  const KERNEL_TABLES := 4             // page tables of the identity-mapped kernel
  const LAST_TABLE := 1023             // directory slot of the recursive mapping
  const KERNEL_PAGES := 4096           // KERNEL_MEMORY_SIZE in pages
  const VIRTUAL_PAGES := 0x10_0000
  const KERNEL_MEMORY_SIZE := 0x100_0000
  const USER_STACK_TOP := 0x880_0000
  const USER_STACK_BOTTOM := 0x7E0_0000
  const NUM_TASKS := 64
  const ALLOC_BASE_PAGE := 0x100       // MEMORY_ALLOC_BASE in pages

  newtype u8 = x: int | 0 <= x < 256

  type Page = s: seq<u8> | |s| == PAGE_SIZE witness seq(PAGE_SIZE, _ => 0)

  datatype Entry = Entry(present: bool, write: bool, index: nat)

  type Table = t: seq<Entry> | |t| == PAGE_ENTRIES witness seq(PAGE_ENTRIES, _ => ABSENT)

  const ABSENT := Entry(false, false, 0)
  function EmptyTable(): (t: Table)
    ensures forall i :: 0 <= i < PAGE_ENTRIES ==> !t[i].present
  {
    seq(PAGE_ENTRIES, _ => ABSENT)
  }

  // One task's user space: the present slots of its page directory with the
  // frame of each page table, the bitmap of mapped pages, and the heap limit.
  datatype Space = Space(dir: map<nat, nat>, vmap: set<nat>, brk: nat)

  // `refs` is memory_map; `tables` and `data` are what a frame holds when it is
  // used as a page table or as a user page.
  datatype Mem = Mem(
    start: nat,
    refs: seq<u8>,
    free: int,
    tables: map<nat, Table>,
    data: map<nat, Page>,
    spaces: map<nat, Space>)

  // A place that names a physical frame.
  datatype Ref = AtPage(pid: nat, page: nat) | AtTable(pid: nat, slot: nat)

  // start_page_idx: the first page behind the first megabyte and memory_map.
  function StartPage(totalPages: nat): nat {
    ALLOC_BASE_PAGE + (totalPages + PAGE_SIZE - 1) / PAGE_SIZE
  }

  function Vpn(d: nat, t: nat): (v: nat)
    requires t < PAGE_ENTRIES
    ensures v / PAGE_ENTRIES == d && v % PAGE_ENTRIES == t
  {
    d * PAGE_ENTRIES + t
  }

  function TableOf(m: Mem, p: nat, d: nat): Table
    requires p in m.spaces && d in m.spaces[p].dir && m.spaces[p].dir[d] in m.tables
  {
    m.tables[m.spaces[p].dir[d]]
  }

  predicate HasTable(m: Mem, p: nat, d: nat) {
    p in m.spaces && d in m.spaces[p].dir && m.spaces[p].dir[d] in m.tables
  }

  function EntryOf(m: Mem, p: nat, v: nat): Entry
    requires HasTable(m, p, v / PAGE_ENTRIES)
  {
    TableOf(m, p, v / PAGE_ENTRIES)[v % PAGE_ENTRIES]
  }

  predicate Mapped(m: Mem, p: nat, v: nat) {
    HasTable(m, p, v / PAGE_ENTRIES) && EntryOf(m, p, v).present
  }

  function FrameOf(m: Mem, p: nat, v: nat): nat
    requires Mapped(m, p, v)
  {
    EntryOf(m, p, v).index
  }

  // Reference r is present and names frame f.
  predicate Names(m: Mem, r: Ref, f: nat) {
    match r
    case AtPage(p, v) => Mapped(m, p, v) && FrameOf(m, p, v) == f
    case AtTable(p, d) => p in m.spaces && d in m.spaces[p].dir && m.spaces[p].dir[d] == f
  }

  predicate Possible(pids: set<nat>, r: Ref) {
    r.pid in pids && (if r.AtPage? then r.page < VIRTUAL_PAGES else r.slot < PAGE_ENTRIES)
  }

  ghost function Universe(pids: set<nat>): (u: set<Ref>)
    ensures forall r :: r in u <==> Possible(pids, r)
  {
    (set p, v | p in pids && 0 <= v < VIRTUAL_PAGES :: AtPage(p, v)) +
    (set p, d | p in pids && 0 <= d < PAGE_ENTRIES :: AtTable(p, d))
  }

  // Every present page-table entry and directory entry that names f.
  ghost function Refs(m: Mem, f: nat): set<Ref> {
    set r | r in Universe(m.spaces.Keys) && Names(m, r, f)
  }

  ghost function FreeFrames(m: Mem): set<nat> {
    set f | m.start <= f < |m.refs| && m.refs[f] == 0
  }

  // Two references may name one frame only as the same virtual page of two tasks.
  predicate SamePlace(r: Ref, q: Ref) {
    match (r, q)
    case (AtPage(_, v), AtPage(_, w)) => v == w
    case (AtTable(p, d), AtTable(o, e)) => p == o && d == e
    case _ => false
  }

  ghost predicate Shape(m: Mem) {
    && m.start <= KERNEL_PAGES <= |m.refs|
    && (forall f :: 0 <= f < KERNEL_PAGES ==> m.refs[f] == 1)
    && (forall p, d :: p in m.spaces && d in m.spaces[p].dir ==>
          KERNEL_TABLES <= d < LAST_TABLE && m.spaces[p].dir[d] in m.tables)
    && (forall r, f: nat :: Names(m, r, f) ==> KERNEL_PAGES <= f < |m.refs|)
    && (forall r, f: nat :: Names(m, r, f) && r.AtPage? ==> f in m.data)
  }

  ghost predicate Unique(m: Mem) {
    forall r, q, f: nat :: Names(m, r, f) && Names(m, q, f) ==> SamePlace(r, q)
  }

  // The counter of frame f is the number of references to it.
  ghost predicate Counted(m: Mem, f: nat) {
    f < |m.refs| && m.refs[f] as int == |Refs(m, f)|
  }

  ghost predicate FreeCounted(m: Mem) {
    m.free == |FreeFrames(m)|
  }

  ghost predicate Exact(m: Mem) {
    (forall f :: KERNEL_PAGES <= f < |m.refs| ==> Counted(m, f)) && FreeCounted(m)
  }

  // A writable entry is the only reference to its frame.
  ghost predicate SoloAt(m: Mem, p: nat, v: nat) {
    Mapped(m, p, v) && EntryOf(m, p, v).write ==>
      FrameOf(m, p, v) < |m.refs| && m.refs[FrameOf(m, p, v)] == 1
  }

  ghost predicate Solo(m: Mem) {
    forall p: nat, v: nat :: SoloAt(m, p, v)
  }

  predicate LegalPage(v: nat, brk: nat) {
    && KERNEL_MEMORY_SIZE <= v * PAGE_SIZE < USER_STACK_TOP
    && (v * PAGE_SIZE < brk || USER_STACK_BOTTOM <= v * PAGE_SIZE)
  }

  ghost predicate LegalAt(m: Mem, p: nat, v: nat) {
    Mapped(m, p, v) ==> LegalPage(v, m.spaces[p].brk)
  }

  ghost predicate Legal(m: Mem) {
    && (forall p :: p in m.spaces ==>
          KERNEL_MEMORY_SIZE <= m.spaces[p].brk < USER_STACK_BOTTOM && m.spaces[p].brk % PAGE_SIZE == 0)
    && (forall p: nat, v: nat :: LegalAt(m, p, v))
  }

  ghost predicate VmapAgrees(m: Mem, p: nat)
    requires p in m.spaces
  {
    forall v: nat :: v in m.spaces[p].vmap <==> Mapped(m, p, v)
  }

  ghost predicate Core(m: Mem) {
    Shape(m) && Unique(m) && Exact(m) && Solo(m) && Legal(m)
  }

  ghost predicate Inv(m: Mem) {
    && Core(m)
    && |m.spaces| <= NUM_TASKS
    && (forall p :: p in m.spaces ==> VmapAgrees(m, p))
  }

  // ---------- consequences of the invariant ----------

  lemma PageIsPossible(m: Mem, r: Ref, f: nat)
    requires Shape(m) && Names(m, r, f)
    ensures r in Refs(m, f)
  {
  }

  lemma OneElement<T>(s: set<T>, a: T, b: T)
    requires |s| == 1 && a in s && b in s
    ensures a == b
  {
    assert |s - {a}| == 0;
  }

  lemma SubsetCard<T>(a: set<T>, b: set<T>)
    requires a <= b
    ensures |a| <= |b|
  {
    assert b == a + (b - a);
  }

  // A set of references with pairwise different tasks is no larger than the set of tasks.
  lemma {:induction false} OnePerTask(s: set<Ref>, pids: set<nat>)
    requires forall r :: r in s ==> r.pid in pids
    requires forall r, q :: r in s && q in s && r.pid == q.pid ==> r == q
    ensures |s| <= |pids|
    decreases |s|
  {
    if s != {} {
      var r :| r in s;
      OnePerTask(s - {r}, pids - {r.pid});
    }
  }

  // A frame has at most one reference per task, so its 8-bit counter never passes NUM_TASKS.
  lemma CountBounded(m: Mem, f: nat)
    requires Core(m) && KERNEL_PAGES <= f < |m.refs|
    ensures m.refs[f] as int <= |m.spaces|
  {
    assert Counted(m, f);
    var s := Refs(m, f);
    forall r, q | r in s && q in s && r.pid == q.pid ensures r == q {
      assert SamePlace(r, q);
    }
    OnePerTask(s, m.spaces.Keys);
  }

  // The count is 1 exactly when no other place names the frame.
  lemma CountOne(m: Mem, r: Ref, f: nat)
    requires Core(m) && Names(m, r, f)
    ensures m.refs[f] >= 1
    ensures m.refs[f] == 1 <==> forall q :: Names(m, q, f) ==> q == r
  {
    assert Counted(m, f);
    var s := Refs(m, f);
    PageIsPossible(m, r, f);
    if m.refs[f] == 1 {
      forall q | Names(m, q, f) ensures q == r {
        PageIsPossible(m, q, f);
        OneElement(s, q, r);
      }
    }
    if forall q :: Names(m, q, f) ==> q == r {
      assert s == {r};
    }
    SubsetCard({r}, s);
  }

  // A frame with count zero is named by nothing.
  lemma CountZero(m: Mem, f: nat)
    requires Core(m) && m.start <= f < |m.refs| && m.refs[f] == 0
    ensures KERNEL_PAGES <= f && forall r :: !Names(m, r, f)
  {
    if f >= KERNEL_PAGES { assert Counted(m, f); }
    forall r | Names(m, r, f) ensures false {
      PageIsPossible(m, r, f);
    }
  }
}
