/** What the kernel heap keeps true (kmalloc.c), stated on values.

A page record p has one entry in each of the sequences that hold the fields of struct pageref.
Memory is a map from word addresses to words; the free list of a page runs through the first
words of its free blocks.  `all` and `bySize` are the records in list order; `pages` says what
each of them is about: the page's address and block type, its free list and the blocks handed
out, by block number. */
module HeapModel {
  import opened Common
  import opened Bits
  import opened PageRefPool

  const PAGE_SIZE: nat := 4096
  const NSIZES: nat := 8
  const LARGEST_SUBPAGE_SIZE: nat := 2048
  const INVALID_OFFSET: nat := 0xffff
  const PAGE_FRAME: nat := 0xffff_f000
  const ADDRESSES: nat := 0x1_0000_0000
  const DEADBEEF: nat := 0xdead_beef

  // ---------------------------------------------------------------- block sizes

  /** sizes[k] */
  function SizeOf(k: nat): (s: nat)
    ensures s >= 16
  {
    if k == 0 then 16 else 2 * SizeOf(k - 1)
  }

  /** PAGE_SIZE / sizes[k] */
  function NBlocks(k: nat): (n: nat)
    ensures n >= 2
    decreases NSIZES - k
  {
    if k + 1 >= NSIZES then 2 else 2 * NBlocks(k + 1)
  }

  lemma SizeTable()
    ensures SizeOf(0) == 16 && SizeOf(1) == 32 && SizeOf(2) == 64 && SizeOf(3) == 128
    ensures SizeOf(4) == 256 && SizeOf(5) == 512 && SizeOf(6) == 1024 && SizeOf(7) == 2048
  {
  }

  /** The blocks of a page fill it exactly. */
  lemma {:induction false} PageFull(k: nat)
    requires k < NSIZES
    ensures NBlocks(k) * SizeOf(k) == PAGE_SIZE
    decreases NSIZES - k
  {
    if k + 1 == NSIZES {
      SizeTable();
    } else {
      PageFull(k + 1);
      assert NBlocks(k) * SizeOf(k) == NBlocks(k + 1) * (2 * SizeOf(k));
    }
  }

  /** The offset of block number b. */
  function At(k: nat, b: nat): nat {
    if b == 0 then 0 else At(k, b - 1) + SizeOf(k)
  }

  lemma {:induction false} AtIs(k: nat, b: nat)
    ensures At(k, b) == b * SizeOf(k)
  {
    if b != 0 {
      AtIs(k, b - 1);
      assert b * SizeOf(k) == (b - 1) * SizeOf(k) + SizeOf(k);
    }
  }

  lemma Sizes(k: nat)
    requires k < NSIZES
    ensures At(k, NBlocks(k)) == PAGE_SIZE
  {
    PageFull(k);
    AtIs(k, NBlocks(k));
  }

  /** Blocks do not overlap. */
  lemma {:induction false} BlocksOrdered(k: nat, b: nat, b': nat)
    requires b < b'
    ensures At(k, b) + SizeOf(k) <= At(k, b')
  {
    if b + 1 < b' {
      BlocksOrdered(k, b, b' - 1);
    }
  }

  lemma BlocksApart(k: nat, b: nat, b': nat)
    requires b != b'
    ensures At(k, b) + SizeOf(k) <= At(k, b') || At(k, b') + SizeOf(k) <= At(k, b)
  {
    if b < b' {
      BlocksOrdered(k, b, b');
    } else {
      BlocksOrdered(k, b', b);
    }
  }

  /** They stay on their page, and start at multiples of their size. */
  lemma BlockOnPage(k: nat, b: nat)
    requires k < NSIZES && b < NBlocks(k)
    ensures At(k, b) + SizeOf(k) <= PAGE_SIZE && At(k, b) % SizeOf(k) == 0
  {
    BlocksOrdered(k, b, NBlocks(k));
    Sizes(k);
    AtIs(k, b);
    DivModUnique(At(k, b), SizeOf(k), b, 0);
  }

  ghost predicate Distinct(s: seq<nat>) {
    s == [] || (s[0] !in s[1..] && Distinct(s[1..]))
  }

  ghost function Elems(s: seq<nat>): set<nat> {
    set x | x in s
  }

  lemma {:induction false} DistinctSize(s: seq<nat>)
    requires Distinct(s)
    ensures |Elems(s)| == |s|
  {
    if s != [] {
      DistinctSize(s[1..]);
      assert Elems(s) == Elems(s[1..]) + {s[0]};
    }
  }

  /** A list of different numbers below n has at most n of them, and n only if it has them all. */
  lemma Pigeonhole(s: seq<nat>, n: nat)
    requires Distinct(s) && forall b :: b in s ==> b < n
    ensures |s| <= n && (|s| == n <==> forall b: nat :: b < n ==> b in s)
  {
    DistinctSize(s);
    IntervalSize(0, n);
    assert forall x :: x in Elems(s) <==> x in s;
    SubsetSize(Elems(s), Interval(0, n));
    if forall b: nat :: b < n ==> b in s {
      assert Interval(0, n) == Elems(s);
    }
  }

  // ---------------------------------------------------------------- page address and block type

  lemma FrameMask()
    ensures HighMask(12, 20) == PAGE_FRAME && Pow2(12) == PAGE_SIZE && Pow2(32) == ADDRESSES
  {
    assert Pow2(8) == 256;
    assert Pow2(4) == 16;
    Pow2Add(4, 8);
    Pow2Add(8, 8);
    Pow2Add(16, 4);
    Pow2Add(12, 20);
    assert HighMask(4, 20) == 16 * (Pow2(20) - 1);
    assert HighMask(8, 20) == 16 * HighMask(4, 20);
    assert HighMask(12, 20) == 16 * HighMask(8, 20);
  }

  /** PR_PAGEADDR and PR_BLOCKTYPE: the page's address and type share one word. */
  function PageAddr(pab: nat): nat {
    pab - pab % PAGE_SIZE
  }

  function TypeOf(pab: nat): nat {
    pab % PAGE_SIZE
  }

  /** MKPAB: what it packs, the two macros above take out again. */
  method MkPab(page: nat, k: nat) returns (w: nat)
    requires page < ADDRESSES && page % PAGE_SIZE == 0 && k < PAGE_SIZE
    ensures PageAddr(w) == page && TypeOf(w) == k
  {
    var hi := FramePart(page);
    var lo := OffsetPart(k);
    w := Join(hi, lo);
    SumParts(page, k);
  }

  lemma SumParts(page: nat, k: nat)
    requires page % PAGE_SIZE == 0 && k < PAGE_SIZE
    ensures PageAddr(page + k) == page && TypeOf(page + k) == k
  {
    var q := page / PAGE_SIZE;
    assert page + k == q * PAGE_SIZE + k;
  }

  method Join(hi: nat, lo: nat) returns (w: nat)
    requires hi % PAGE_SIZE == 0 && lo < PAGE_SIZE
    ensures w == hi + lo
  {
    JoinParts(hi, lo);
    w := Or(hi, lo);
  }

  method FramePart(x: nat) returns (r: nat)
    requires x < ADDRESSES
    ensures r == PageAddr(x)
  {
    MaskParts(x);
    r := And(x, PAGE_FRAME);
  }

  method OffsetPart(x: nat) returns (r: nat)
    requires x < ADDRESSES
    ensures r == TypeOf(x)
  {
    MaskParts(x);
    r := And(x, PAGE_SIZE - 1);
  }

  lemma JoinParts(page: nat, k: nat)
    requires page % PAGE_SIZE == 0 && k < PAGE_SIZE
    ensures Or(page, k) == page + k
  {
    FrameMask();
    var a := page / PAGE_SIZE;
    assert page == a * PAGE_SIZE;
    OrDisjoint(a, k, 12);
  }

  /** The masks of the source compute these parts. */
  lemma MaskParts(x: nat)
    requires x < ADDRESSES
    ensures And(x, PAGE_FRAME) == PageAddr(x) && And(x, PAGE_SIZE - 1) == TypeOf(x)
  {
    FrameMask();
    AndHighMask(x, 12, 20);
    AndMask(x, 12);
    LowHigh(x, 12);
    DivModUnique(x, PAGE_SIZE, Shr(x, 12), Low(x, 12));
  }

  // ---------------------------------------------------------------- linked lists of page records

  /** What follows the i-th record of s. */
  ghost function After(s: seq<nat>, i: nat): Option<nat> {
    if i + 1 < |s| then Some(s[i + 1]) else None
  }

  ghost function First(s: seq<nat>): Option<nat> {
    if s == [] then None else Some(s[0])
  }

  /** The list that starts at `head` and goes on through `next` is s. */
  ghost predicate Chain(head: Option<nat>, next: seq<Option<nat>>, s: seq<nat>) {
    && head == First(s)
    && (forall i :: 0 <= i < |s| ==> s[i] < |next|)
    && forall i {:trigger After(s, i)} :: 0 <= i < |s| ==> next[s[i]] == After(s, i)
  }

  lemma ChainOther(head: Option<nat>, next: seq<Option<nat>>, s: seq<nat>, p: nat, x: Option<nat>)
    requires Chain(head, next, s) && p < |next| && p !in s
    ensures Chain(head, next[p := x], s)
  {
  }

  lemma ChainPush(head: Option<nat>, next: seq<Option<nat>>, s: seq<nat>, p: nat)
    requires Chain(head, next, s) && p < |next| && p !in s
    ensures Chain(Some(p), next[p := head], [p] + s)
  {
    var s', n' := [p] + s, next[p := head];
    forall i | 0 <= i < |s'| ensures n'[s'[i]] == After(s', i) {
      if i == 0 {
        assert After(s', 0) == First(s);
      } else {
        assert s'[i] == s[i - 1] && s[i - 1] in s;
        assert After(s', i) == After(s, i - 1);
      }
    }
  }

  ghost function Without(s: seq<nat>, i: nat): seq<nat>
    requires i < |s|
  {
    s[..i] + s[i + 1..]
  }

  lemma ChainRemoveHead(head: Option<nat>, next: seq<Option<nat>>, s: seq<nat>)
    requires Chain(head, next, s) && s != []
    ensures Chain(next[s[0]], next, Without(s, 0))
  {
    var s' := Without(s, 0);
    assert next[s[0]] == After(s, 0) == First(s');
    forall j | 0 <= j < |s'| ensures next[s'[j]] == After(s', j) {
      assert s'[j] == s[j + 1] && After(s', j) == After(s, j + 1);
    }
  }

  lemma ChainRemove(head: Option<nat>, next: seq<Option<nat>>, s: seq<nat>, i: nat)
    requires Chain(head, next, s) && NoDup(s) && 0 < i < |s|
    ensures Chain(head, next[s[i - 1] := next[s[i]]], Without(s, i))
  {
    var s', n' := Without(s, i), next[s[i - 1] := next[s[i]]];
    assert First(s') == First(s);
    forall j | 0 <= j < |s'| ensures n'[s'[j]] == After(s', j) {
      if j < i - 1 {
        assert s'[j] == s[j] && s[j] != s[i - 1] && After(s', j) == After(s, j);
      } else if j == i - 1 {
        assert s'[j] == s[i - 1] && After(s', j) == After(s, i) == next[s[i]];
      } else {
        assert s'[j] == s[j + 1] && s[i - 1] != s[j + 1] && After(s', j) == After(s, j + 1);
      }
    }
  }

  lemma WithoutElems(s: seq<nat>, i: nat)
    requires NoDup(s) && i < |s|
    ensures NoDup(Without(s, i)) && forall x :: x in Without(s, i) <==> x in s && x != s[i]
  {
    var s' := Without(s, i);
    assert forall j :: 0 <= j < |s'| ==> s'[j] == if j < i then s[j] else s[j + 1];
    forall x ensures x in s' <==> x in s && x != s[i] {
      if x in s && x != s[i] {
        var j :| 0 <= j < |s| && s[j] == x;
        assert s'[if j < i then j else j - 1] == x;
      }
    }
  }

  // ---------------------------------------------------------------- one page

  /** A heap page: its address and block type, its free list, and the blocks handed out with the
      size asked for, all by block number. */
  datatype Page = Page(addr: nat, kind: nat, free: seq<nat>, used: map<nat, nat>)

  function Load(mem: map<nat, nat>, a: nat): nat {
    if a in mem then mem[a] else 0
  }

  ghost predicate SameOutside(mem: map<nat, nat>, mem': map<nat, nat>, lo: nat, hi: nat) {
    forall a: nat :: a < lo || hi <= a ==> Load(mem', a) == Load(mem, a)
  }

  /** Following the first words of free blocks from address `head` to NULL meets these blocks, all
      different. */
  ghost predicate FreeChain(mem: map<nat, nat>, page: nat, k: nat, head: nat, free: seq<nat>)
    decreases |free|
  {
    if free == [] then head == 0
    else
      && free[0] < NBlocks(k) && free[0] !in free[1..] && head == page + At(k, free[0])
      && FreeChain(mem, page, k, Load(mem, head), free[1..])
  }

  /** The free list of one page, from the offset and count in its record. */
  ghost predicate FreeOk(mem: map<nat, nat>, page: nat, k: nat, off: nat, n: nat, free: seq<nat>) {
    && n == |free| && (off == INVALID_OFFSET <==> free == []) && page > 0
    && FreeChain(mem, page, k, if free == [] then 0 else page + off, free)
  }

  lemma {:induction false} FreeChainFacts(mem: map<nat, nat>, page: nat, k: nat, head: nat, free: seq<nat>)
    requires FreeChain(mem, page, k, head, free)
    ensures Distinct(free) && forall b :: b in free ==> b < NBlocks(k)
    decreases |free|
  {
    if free != [] {
      FreeChainFacts(mem, page, k, Load(mem, head), free[1..]);
      assert free == [free[0]] + free[1..];
    }
  }

  /** Writes that miss the first words of the free blocks leave the free list alone. */
  lemma {:induction false} FreeChainStays(mem: map<nat, nat>, mem': map<nat, nat>, page: nat, k: nat, head: nat, free: seq<nat>,
                                          lo: nat, hi: nat)
    requires FreeChain(mem, page, k, head, free) && SameOutside(mem, mem', lo, hi)
    requires forall b :: b in free ==> page + At(k, b) < lo || hi <= page + At(k, b)
    ensures FreeChain(mem', page, k, head, free)
    decreases |free|
  {
    if free != [] {
      assert free[0] in free;
      FreeChainStays(mem, mem', page, k, Load(mem, head), free[1..], lo, hi);
    }
  }

  /** Every block of the page is either free or handed out, and no smaller than was asked for. */
  ghost predicate Shared(pg: Page) {
    && (forall b: nat :: b < NBlocks(pg.kind) ==> (b in pg.free <==> b !in pg.used))
    && (forall b :: b in pg.used ==> b < NBlocks(pg.kind) && pg.used[b] <= SizeOf(pg.kind))
  }

  ghost predicate PageInv(mem: map<nat, nat>, off: nat, n: nat, pg: Page) {
    forall u {:trigger InView(OnePage, u)} :: InView(OnePage, u) ==>
      pg.kind < NSIZES && FreeOk(mem, pg.addr, pg.kind, off, n, pg.free) && Shared(pg)
  }

  /** The page after its first free block has been handed out. */
  ghost function AfterAlloc(pg: Page, size: nat): Page
    requires pg.free != []
  {
    pg.(free := pg.free[1..], used := pg.used[pg.free[0] := size])
  }

  lemma AllocShared(pg: Page, size: nat)
    requires Shared(pg) && pg.free != [] && pg.free[0] !in pg.free[1..] && pg.free[0] < NBlocks(pg.kind)
    requires size <= SizeOf(pg.kind)
    ensures Shared(AfterAlloc(pg, size)) && pg.free[0] !in pg.used
  {
    assert pg.free == [pg.free[0]] + pg.free[1..];
    assert pg.free[0] in pg.free;
  }

  /** The page after block b has been put back at the head of its free list. */
  ghost function AfterFree(pg: Page, b: nat): Page {
    pg.(free := [b] + pg.free, used := pg.used - {b})
  }

  lemma FreeShared(pg: Page, b: nat)
    requires Shared(pg) && b in pg.used
    ensures Shared(AfterFree(pg, b)) && b !in pg.free && b < NBlocks(pg.kind)
  {
  }

  /** Writes inside one block miss the first words of all other blocks of the page. */
  lemma OtherBlocks(page: nat, k: nat, free: seq<nat>, b: nat, size: nat)
    requires b !in free && size <= SizeOf(k)
    ensures forall c :: c in free ==>
              page + At(k, c) < page + At(k, b) || page + At(k, b) + size <= page + At(k, c)
  {
    forall c | c in free ensures page + At(k, c) < page + At(k, b) || page + At(k, b) + size <= page + At(k, c) {
      BlocksApart(k, b, c);
    }
  }

  /** Putting a block back: its first word points to the old head, the rest of it may be anything. */
  lemma FreeFreeList(mem: map<nat, nat>, mem': map<nat, nat>, page: nat, k: nat, off: nat, n: nat, free: seq<nat>, b: nat)
    requires FreeOk(mem, page, k, off, n, free) && k < NSIZES && b < NBlocks(k) && b !in free
    requires SameOutside(mem, mem', page + At(k, b), page + At(k, b) + SizeOf(k))
    requires Load(mem', page + At(k, b)) == if off == INVALID_OFFSET then 0 else page + off
    ensures FreeOk(mem', page, k, At(k, b), n + 1, [b] + free)
  {
    FreeOkStays(mem, mem', page, k, off, n, free, b, SizeOf(k));
    BlockOnPage(k, b);
    assert ([b] + free)[1..] == free;
  }

  /** A client that writes inside its block does not touch the page's free list. */
  lemma ClientWrite(mem: map<nat, nat>, mem': map<nat, nat>, off: nat, n: nat, pg: Page, b: nat)
    requires PageInv(mem, off, n, pg) && b in pg.used
    requires SameOutside(mem, mem', pg.addr + At(pg.kind, b), pg.addr + At(pg.kind, b) + pg.used[b])
    ensures PageInv(mem', off, n, pg)
  {
    assert InView(OnePage, true);
    FreeOkStays(mem, mem', pg.addr, pg.kind, off, n, pg.free, b, pg.used[b]);
  }

  lemma FreeOkStays(mem: map<nat, nat>, mem': map<nat, nat>, page: nat, k: nat, off: nat, n: nat, free: seq<nat>, b: nat, size: nat)
    requires FreeOk(mem, page, k, off, n, free) && b !in free && size <= SizeOf(k)
    requires SameOutside(mem, mem', page + At(k, b), page + At(k, b) + size)
    ensures FreeOk(mem', page, k, off, n, free)
  {
    OtherBlocks(page, k, free, b, size);
    var lo := page + At(k, b);
    FreeChainStays(mem, mem', page, k, if free == [] then 0 else page + off, free, lo, lo + size);
  }

  /** Writes on another page do not touch this one. */
  lemma ElsewhereWrite(mem: map<nat, nat>, mem': map<nat, nat>, off: nat, n: nat, pg: Page, lo: nat, hi: nat)
    requires PageInv(mem, off, n, pg) && SameOutside(mem, mem', lo, hi)
    requires hi <= pg.addr || pg.addr + PAGE_SIZE <= lo
    ensures PageInv(mem', off, n, pg)
  {
    assert InView(OnePage, true);
    var head := if pg.free == [] then 0 else pg.addr + off;
    FreeChainFacts(mem, pg.addr, pg.kind, head, pg.free);
    forall b | b in pg.free ensures At(pg.kind, b) < PAGE_SIZE {
      BlockOnPage(pg.kind, b);
    }
    FreeChainStays(mem, mem', pg.addr, pg.kind, head, pg.free, lo, hi);
  }

  /** All blocks of a page are free exactly when none is handed out. */
  lemma WhollyFree(mem: map<nat, nat>, off: nat, n: nat, pg: Page)
    requires PageInv(mem, off, n, pg)
    ensures n == |pg.free| <= NBlocks(pg.kind)
    ensures n == NBlocks(pg.kind) <==> pg.used == map[]
  {
    assert InView(OnePage, true);
    FreeChainFacts(mem, pg.addr, pg.kind, if pg.free == [] then 0 else pg.addr + off, pg.free);
    Pigeonhole(pg.free, NBlocks(pg.kind));
    if pg.used != map[] {
      var b :| b in pg.used;
      assert b !in pg.free;
    }
  }

  // ---------------------------------------------------------------- all pages

  /** Pages are real, aligned and different from each other. */
  ghost predicate PagesOk(pages: map<nat, Page>) {
    forall u {:trigger InView(Frames, u)} :: InView(Frames, u) ==>
      && (forall p :: p in pages ==> p < TOTAL && PageOk(pages[p]))
      && (forall p, q :: p in pages && q in pages && p != q ==> pages[p].addr != pages[q].addr)
  }

  ghost predicate PageOk(pg: Page) {
    pg.kind < NSIZES && pg.addr % PAGE_SIZE == 0 && 0 < pg.addr <= ADDRESSES - PAGE_SIZE
  }

  /** The packed word of each listed record says where its page is and of what type. */
  ghost predicate PabOk(pab: seq<nat>, pages: map<nat, Page>) {
    |pab| == TOTAL &&
    forall u {:trigger InView(Words, u)} :: InView(Words, u) ==>
      forall p :: p in pages ==> p < TOTAL && PageAddr(pab[p]) == pages[p].addr && TypeOf(pab[p]) == pages[p].kind
  }

  ghost predicate ContentsOk(mem: map<nat, nat>, freeOff: seq<nat>, nfree: seq<nat>, pages: map<nat, Page>) {
    |freeOff| == |nfree| == TOTAL &&
    forall u {:trigger InView(Contents, u)} :: InView(Contents, u) ==>
      forall p :: p in pages ==> p < TOTAL && PageInv(mem, freeOff[p], nfree[p], pages[p])
  }

  /** No listed page except those in `spare` is wholly free. */
  ghost predicate InDemand(pages: map<nat, Page>, spare: set<nat>) {
    forall u {:trigger InView(Demand, u)} :: InView(Demand, u) ==>
      forall p :: p in pages && p !in spare ==> pages[p].used != map[]
  }

  lemma PageAt(pages: map<nat, Page>, pab: seq<nat>, p: nat)
    requires PagesOk(pages) && PabOk(pab, pages) && p in pages
    ensures p < TOTAL && PageOk(pages[p])
    ensures PageAddr(pab[p]) == pages[p].addr && TypeOf(pab[p]) == pages[p].kind
  {
    assert InView(Frames, true) && InView(Words, true);
  }

  lemma ContentsAt(mem: map<nat, nat>, freeOff: seq<nat>, nfree: seq<nat>, pages: map<nat, Page>, p: nat)
    requires ContentsOk(mem, freeOff, nfree, pages) && p in pages
    ensures p < TOTAL && PageInv(mem, freeOff[p], nfree[p], pages[p])
  {
    assert InView(Contents, true);
  }

  /** The list of all pages holds each listed page once. */
  ghost predicate AllListOk(nextAll: seq<Option<nat>>, allbase: Option<nat>, pages: map<nat, Page>, all: seq<nat>) {
    |nextAll| == TOTAL &&
    forall u {:trigger InView(AllPages, u)} :: InView(AllPages, u) ==>
      && Chain(allbase, nextAll, all) && NoDup(all)
      && forall p :: p in all <==> p in pages
  }

  /** The list for block type k holds the listed pages of that type once each. */
  ghost predicate SizeListOk(nextSame: seq<Option<nat>>, base: Option<nat>, pages: map<nat, Page>, s: seq<nat>, k: nat) {
    && |nextSame| == TOTAL && Chain(base, nextSame, s) && NoDup(s)
    && forall p :: p in s <==> p in pages && pages[p].kind == k
  }

  ghost predicate SizeListsOk(nextSame: seq<Option<nat>>, sizebases: seq<Option<nat>>, pages: map<nat, Page>, bySize: seq<seq<nat>>) {
    |nextSame| == TOTAL && |sizebases| == |bySize| == NSIZES &&
    forall u {:trigger InView(SizeLists, u)} :: InView(SizeLists, u) ==>
      forall k :: 0 <= k < NSIZES ==> SizeListOk(nextSame, sizebases[k], pages, bySize[k], k)
  }

  /** Two pages with the same place and type in the lists. */
  ghost predicate SameFrame(pages: map<nat, Page>, pages': map<nat, Page>) {
    && pages.Keys == pages'.Keys
    && forall p :: p in pages ==> pages'[p].addr == pages[p].addr && pages'[p].kind == pages[p].kind
  }

  lemma FrameKeeps(pab: seq<nat>, nextAll: seq<Option<nat>>, allbase: Option<nat>, nextSame: seq<Option<nat>>,
                   sizebases: seq<Option<nat>>, all: seq<nat>, bySize: seq<seq<nat>>, pages: map<nat, Page>, pages': map<nat, Page>)
    requires SameFrame(pages, pages') && PabOk(pab, pages) && PagesOk(pages)
    requires AllListOk(nextAll, allbase, pages, all) && SizeListsOk(nextSame, sizebases, pages, bySize)
    ensures PabOk(pab, pages') && PagesOk(pages')
    ensures AllListOk(nextAll, allbase, pages', all) && SizeListsOk(nextSame, sizebases, pages', bySize)
  {
    assert InView(Words, true) && InView(Frames, true) && InView(AllPages, true) && InView(SizeLists, true);
    assert forall p :: p in pages <==> p in pages';
    forall k | 0 <= k < NSIZES ensures SizeListOk(nextSame, sizebases[k], pages', bySize[k], k) {
      assert SizeListOk(nextSame, sizebases[k], pages, bySize[k], k);
    }
  }

  lemma PagesApart(a: nat, o: nat, a': nat, o': nat)
    requires a % PAGE_SIZE == 0 && a' % PAGE_SIZE == 0 && a != a' && o < PAGE_SIZE && o' < PAGE_SIZE
    ensures a + o != a' + o'
    ensures a + PAGE_SIZE <= a' || a' + PAGE_SIZE <= a
  {
  }

  /** Changing one page. */
  lemma UpdatePage(mem: map<nat, nat>, freeOff: seq<nat>, nfree: seq<nat>, pages: map<nat, Page>, p: nat, off: nat, n: nat, pg: Page)
    requires ContentsOk(mem, freeOff, nfree, pages) && p < TOTAL && PageInv(mem, off, n, pg)
    ensures ContentsOk(mem, freeOff[p := off], nfree[p := n], pages[p := pg])
  {
    assert InView(Contents, true);
  }

  lemma StillInDemand(pages: map<nat, Page>, p: nat, pg: Page)
    requires InDemand(pages, {p}) && pg.used != map[]
    ensures InDemand(pages[p := pg], {})
  {
    assert InView(Demand, true);
  }

  // ---------------------------------------------------------------- walking the lists

  lemma SizeListAt(nextSame: seq<Option<nat>>, sizebases: seq<Option<nat>>, pages: map<nat, Page>, bySize: seq<seq<nat>>, k: nat, i: nat)
    requires SizeListsOk(nextSame, sizebases, pages, bySize) && k < NSIZES
    ensures sizebases[k] == First(bySize[k])
    ensures i < |bySize[k]| ==>
              && bySize[k][i] < TOTAL && bySize[k][i] in pages && pages[bySize[k][i]].kind == k
              && nextSame[bySize[k][i]] == After(bySize[k], i)
    ensures forall p :: p in pages && pages[p].kind == k ==> p in bySize[k]
  {
    assert InView(SizeLists, true);
    assert SizeListOk(nextSame, sizebases[k], pages, bySize[k], k);
    if i < |bySize[k]| {
      assert bySize[k][i] in bySize[k];
      assert nextSame[bySize[k][i]] == After(bySize[k], i);
    }
  }

  lemma AllListAt(nextAll: seq<Option<nat>>, allbase: Option<nat>, pages: map<nat, Page>, all: seq<nat>, i: nat)
    requires AllListOk(nextAll, allbase, pages, all)
    ensures allbase == First(all) && NoDup(all)
    ensures i < |all| ==> all[i] < TOTAL && all[i] in pages && nextAll[all[i]] == After(all, i)
    ensures forall p :: p in pages ==> p in all
  {
    assert InView(AllPages, true);
    if i < |all| {
      assert all[i] in all;
      assert nextAll[all[i]] == After(all, i);
    }
  }

  // ---------------------------------------------------------------- a fresh page

  /** n-1, ..., 1, 0: the order in which a fresh page's blocks are linked. */
  ghost function Descending(n: nat): seq<nat> {
    if n == 0 then [] else [n - 1] + Descending(n - 1)
  }

  lemma {:induction false} DescendingElems(n: nat)
    ensures |Descending(n)| == n && forall b: nat :: b in Descending(n) <==> b < n
  {
    if n != 0 {
      DescendingElems(n - 1);
    }
  }

  /** Where block i of a page is. */
  method BlockAddr(page: nat, k: nat, i: nat) returns (a: nat)
    ensures a == page + At(k, i)
  {
    AtIs(k, i);
    a := page + i * SizeOf(k);
  }

  /** One turn of the loop below. */
  method LinkBlock(mem: map<nat, nat>, prpage: nat, k: nat, i: nat) returns (fl: nat, mem': map<nat, nat>)
    requires k < NSIZES && prpage > 0 && 1 <= i < NBlocks(k)
    requires FreeChain(mem, prpage, k, prpage + At(k, i - 1), Descending(i))
    ensures fl == prpage + At(k, i) && FreeChain(mem', prpage, k, fl, Descending(i + 1))
    ensures SameOutside(mem, mem', prpage, prpage + PAGE_SIZE)
  {
    fl := BlockAddr(prpage, k, i);
    var nxt := BlockAddr(prpage, k, i - 1);
    mem' := mem[fl := nxt];
    BlocksOrdered(k, i - 1, i);
    assert fl != nxt;
    LinkOne(mem, mem', prpage, k, nxt, i);
  }

  /** The loop that links the blocks of a fresh page, each to the one before it. */
  method LinkBlocks(mem: map<nat, nat>, prpage: nat, k: nat) returns (mem': map<nat, nat>, off: nat)
    requires k < NSIZES && prpage > 0
    ensures PageInv(mem', off, NBlocks(k), FreshPage(prpage, k)) && SameOutside(mem, mem', prpage, prpage + PAGE_SIZE)
  {
    var fl := prpage;
    mem' := mem[fl := 0];
    var i := 1;
    LinkFirst(mem, mem', prpage, k);
    while i < NBlocks(k)
      invariant 1 <= i <= NBlocks(k) && fl == prpage + At(k, i - 1)
      invariant FreeChain(mem', prpage, k, fl, Descending(i))
      invariant SameOutside(mem, mem', prpage, prpage + PAGE_SIZE)
    {
      fl, mem' := LinkBlock(mem', prpage, k, i);
      i := i + 1;
    }
    off := fl - prpage;
    var last := BlockAddr(0, k, NBlocks(k) - 1);
    assert off == last;
    FreshInv(mem', prpage, k, off);
  }

  /** A fresh page: every block free, the last one first. */
  ghost function FreshPage(page: nat, k: nat): Page {
    Page(page, k, Descending(NBlocks(k)), map[])
  }

  lemma FreshInv(mem: map<nat, nat>, page: nat, k: nat, off: nat)
    requires k < NSIZES && page > 0 && off == At(k, NBlocks(k) - 1)
    requires FreeChain(mem, page, k, page + off, Descending(NBlocks(k)))
    ensures PageInv(mem, off, NBlocks(k), FreshPage(page, k))
  {
    var n := NBlocks(k);
    assert off != INVALID_OFFSET by { BlockOnPage(k, n - 1); }
    FreshShared(page, k);
    assert FreeOk(mem, page, k, off, n, Descending(n));
  }

  lemma FreshShared(page: nat, k: nat)
    ensures Shared(FreshPage(page, k)) && |Descending(NBlocks(k))| == NBlocks(k)
  {
    DescendingElems(NBlocks(k));
  }

  lemma LinkFirst(mem: map<nat, nat>, mem': map<nat, nat>, page: nat, k: nat)
    requires mem' == mem[page := 0]
    ensures At(k, 0) == 0 && FreeChain(mem', page, k, page, Descending(1))
    ensures SameOutside(mem, mem', page, page + PAGE_SIZE)
  {
    assert Descending(1) == [0] && FreeChain(mem', page, k, 0, []);
  }

  lemma LinkOne(mem: map<nat, nat>, mem': map<nat, nat>, page: nat, k: nat, head: nat, i: nat)
    requires k < NSIZES && 0 < i < NBlocks(k) && FreeChain(mem, page, k, head, Descending(i))
    requires head == page + At(k, i - 1)
    requires mem' == mem[page + At(k, i) := head]
    ensures FreeChain(mem', page, k, page + At(k, i), Descending(i + 1))
    ensures SameOutside(mem, mem', page, page + PAGE_SIZE)
  {
    BlockOnPage(k, i);
    LinkOthers(mem, mem', page, k, head, i);
    DescendingElems(i);
    assert Descending(i + 1)[1..] == Descending(i);
  }

  lemma LinkOthers(mem: map<nat, nat>, mem': map<nat, nat>, page: nat, k: nat, head: nat, i: nat)
    requires FreeChain(mem, page, k, head, Descending(i)) && mem' == mem[page + At(k, i) := head]
    ensures FreeChain(mem', page, k, head, Descending(i))
  {
    DescendingElems(i);
    OtherBlocks(page, k, Descending(i), i, SizeOf(k));
    FreeChainStays(mem, mem', page, k, head, Descending(i), page + At(k, i), page + At(k, i) + SizeOf(k));
  }

  /** Writes on one page leave the contents of all others as they are. */
  lemma ContentsElsewhere(mem: map<nat, nat>, mem': map<nat, nat>, freeOff: seq<nat>, nfree: seq<nat>, pages: map<nat, Page>, page: nat)
    requires ContentsOk(mem, freeOff, nfree, pages) && PagesOk(pages) && SameOutside(mem, mem', page, page + PAGE_SIZE)
    requires page % PAGE_SIZE == 0 && forall p :: p in pages ==> pages[p].addr != page
    ensures ContentsOk(mem', freeOff, nfree, pages)
  {
    assert InView(Contents, true) && InView(Frames, true);
    forall p | p in pages ensures PageInv(mem', freeOff[p], nfree[p], pages[p]) {
      PagesApart(page, 0, pages[p].addr, 0);
      ElsewhereWrite(mem, mem', freeOff[p], nfree[p], pages[p], page, page + PAGE_SIZE);
    }
  }

  /** Filling in a record that is on no list changes nothing for the listed pages. */
  lemma UnusedRecord(pab: seq<nat>, mem: map<nat, nat>, freeOff: seq<nat>, nfree: seq<nat>, pages: map<nat, Page>,
                     p: nat, w: nat, off: nat, n: nat)
    requires PabOk(pab, pages) && ContentsOk(mem, freeOff, nfree, pages) && p < TOTAL && p !in pages
    ensures PabOk(pab[p := w], pages) && ContentsOk(mem, freeOff[p := off], nfree[p := n], pages)
  {
  }

  lemma NewPage(pages: map<nat, Page>, pab: seq<nat>, p: nat, pg: Page)
    requires PagesOk(pages) && PabOk(pab, pages) && p < TOTAL && p !in pages && PageOk(pg)
    requires PageAddr(pab[p]) == pg.addr && TypeOf(pab[p]) == pg.kind
    requires forall q :: q in pages ==> pages[q].addr != pg.addr
    ensures PagesOk(pages[p := pg]) && PabOk(pab, pages[p := pg])
  {
  }

  lemma NewContents(mem: map<nat, nat>, freeOff: seq<nat>, nfree: seq<nat>, pages: map<nat, Page>, p: nat, pg: Page)
    requires ContentsOk(mem, freeOff, nfree, pages) && p < TOTAL && PageInv(mem, freeOff[p], nfree[p], pg)
    requires InDemand(pages, {})
    ensures ContentsOk(mem, freeOff, nfree, pages[p := pg]) && InDemand(pages[p := pg], {p})
  {
  }

  lemma NewSpare(pages: map<nat, Page>, p: nat, pg: Page)
    requires InDemand(pages, {})
    ensures InDemand(pages[p := pg], {p})
  {
  }
}
