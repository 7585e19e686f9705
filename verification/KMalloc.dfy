/** The kernel heap (kmalloc.c), with GUARDS, LABELS and SLOW off as in the source.

A small kmalloc has up to three critical sections: `TryAlloc`; `ReserveRecord`, with a page to hand;
and `AllocOnPage`, which needs no more than that the reserved record is still pending.  `Valid`
holds between any two critical sections of any threads, so it holds over every run. */
module KMalloc {
  import opened Common
  import opened Bits
  import opened PageRefPool
  import opened HeapModel

  /** remove_lists, on one list: walk to pr and take it out. */
  method Unlink(head: Option<nat>, next: seq<Option<nat>>, pr: nat, ghost s: seq<nat>)
    returns (head': Option<nat>, next': seq<Option<nat>>, ghost i: nat)
    requires Chain(head, next, s) && NoDup(s) && pr in s
    ensures i < |s| && s[i] == pr && Chain(head', next', Without(s, i))
    ensures |next'| == |next| && forall q :: 0 <= q < |next| && q !in s ==> next'[q] == next[q]
  {
    head', next' := head, next;
    i := 0;
    if head == Some(pr) {
      ChainRemoveHead(head, next, s);
      head' := next[pr];
      return;
    }
    var guy := head.value;
    while next[guy] != Some(pr)
      invariant i < |s| && s[i] == guy < |next| && forall j :: 0 <= j <= i ==> s[j] != pr
      decreases |s| - i
    {
      assert next[s[i]] == After(s, i);
      i := i + 1;
      guy := next[guy].value;
    }
    assert next[s[i]] == After(s, i);
    i := i + 1;
    ChainRemove(head, next, s, i);
    next' := next[guy := next[pr]];
  }

  lemma PushAll(nextAll: seq<Option<nat>>, allbase: Option<nat>, pages: map<nat, Page>, all: seq<nat>, p: nat, x: Page)
    requires AllListOk(nextAll, allbase, pages, all) && p < TOTAL && p !in pages
    ensures AllListOk(nextAll[p := allbase], Some(p), pages[p := x], [p] + all)
  {
    assert InView(AllPages, true);
    ChainPush(allbase, nextAll, all, p);
  }

  lemma PushSize(nextSame: seq<Option<nat>>, sizebases: seq<Option<nat>>, pages: map<nat, Page>, bySize: seq<seq<nat>>, p: nat, x: Page)
    requires SizeListsOk(nextSame, sizebases, pages, bySize) && p < TOTAL && p !in pages && x.kind < NSIZES
    ensures var k := x.kind;
            SizeListsOk(nextSame[p := sizebases[k]], sizebases[k := Some(p)], pages[p := x], bySize[k := [p] + bySize[k]])
  {
    var k := x.kind;
    assert InView(SizeLists, true);
    var next', bases', by' := nextSame[p := sizebases[k]], sizebases[k := Some(p)], bySize[k := [p] + bySize[k]];
    forall j | 0 <= j < NSIZES ensures SizeListOk(next', bases'[j], pages[p := x], by'[j], j) {
      assert SizeListOk(nextSame, sizebases[j], pages, bySize[j], j);
      if j == k {
        ChainPush(sizebases[k], nextSame, bySize[k], p);
      } else {
        ChainOther(sizebases[j], nextSame, bySize[j], p, sizebases[k]);
      }
    }
  }

  lemma RemovedAll(nextAll: seq<Option<nat>>, allbase: Option<nat>, pages: map<nat, Page>, all: seq<nat>, p: nat, j: nat,
                   nextAll': seq<Option<nat>>, allbase': Option<nat>)
    requires AllListOk(nextAll, allbase, pages, all) && p in pages
    requires j < |all| && all[j] == p && |nextAll'| == TOTAL && Chain(allbase', nextAll', Without(all, j))
    ensures AllListOk(nextAll', allbase', pages - {p}, Without(all, j))
  {
    assert InView(AllPages, true);
    WithoutElems(all, j);
  }

  lemma RemovedSize(nextSame: seq<Option<nat>>, sizebases: seq<Option<nat>>, pages: map<nat, Page>, bySize: seq<seq<nat>>,
                    p: nat, i: nat, nextSame': seq<Option<nat>>, base': Option<nat>)
    requires SizeListsOk(nextSame, sizebases, pages, bySize) && p in pages && pages[p].kind < NSIZES
    requires var s := bySize[pages[p].kind];
             && i < |s| && s[i] == p && |nextSame'| == TOTAL && Chain(base', nextSame', Without(s, i))
             && forall q :: 0 <= q < TOTAL && q !in s ==> nextSame'[q] == nextSame[q]
    ensures var k := pages[p].kind;
            SizeListsOk(nextSame', sizebases[k := base'], pages - {p}, bySize[k := Without(bySize[k], i)])
  {
    var k := pages[p].kind;
    assert InView(SizeLists, true);
    var bases', by' := sizebases[k := base'], bySize[k := Without(bySize[k], i)];
    assert SizeListOk(nextSame, sizebases[k], pages, bySize[k], k);
    WithoutElems(bySize[k], i);
    forall m | 0 <= m < NSIZES ensures SizeListOk(nextSame', bases'[m], pages - {p}, by'[m], m) {
      assert SizeListOk(nextSame, sizebases[m], pages, bySize[m], m);
      if m != k {
        forall x | 0 <= x < |bySize[m]| ensures nextSame'[bySize[m][x]] == After(bySize[m], x) {
          assert bySize[m][x] in bySize[m];
          assert nextSame[bySize[m][x]] == After(bySize[m], x);
        }
      }
    }
  }

  /** A page whose contents change keeps its place in the lists. */
  lemma Replaced(pab: seq<nat>, nextAll: seq<Option<nat>>, allbase: Option<nat>, nextSame: seq<Option<nat>>,
                 sizebases: seq<Option<nat>>, all: seq<nat>, bySize: seq<seq<nat>>, pages: map<nat, Page>, p: nat, pg: Page)
    requires p in pages && pg.addr == pages[p].addr && pg.kind == pages[p].kind
    requires PabOk(pab, pages) && PagesOk(pages)
    requires AllListOk(nextAll, allbase, pages, all) && SizeListsOk(nextSame, sizebases, pages, bySize)
    ensures PabOk(pab, pages[p := pg]) && PagesOk(pages[p := pg]) && pages[p := pg].Keys == pages.Keys
    ensures AllListOk(nextAll, allbase, pages[p := pg], all) && SizeListsOk(nextSame, sizebases, pages[p := pg], bySize)
  {
    assert pages[p := pg].Keys == pages.Keys;
    FrameKeeps(pab, nextAll, allbase, nextSame, sizebases, all, bySize, pages, pages[p := pg]);
  }

  lemma FewerSpare(pages: map<nat, Page>, spare: set<nat>)
    requires InDemand(pages, {})
    ensures InDemand(pages, spare)
  {
  }

  /** The pointer work of doalloc; its assertions are those of the source. */
  method TakeHead(mem: map<nat, nat>, prpage: nat, off: nat, n: nat, ghost pg: Page, ghost sz: nat)
    returns (ret: nat, off': nat, n': nat)
    requires PageInv(mem, off, n, pg) && prpage == pg.addr > 0 && n > 0 && sz <= SizeOf(pg.kind)
    ensures pg.free != [] && ret == prpage + At(pg.kind, pg.free[0]) && pg.free[0] !in pg.used
    ensures PageInv(mem, off', n', AfterAlloc(pg, sz))
  {
    assert InView(OnePage, true);
    AllocShared(pg, sz);
    BlockOnPage(pg.kind, pg.free[0]);
    assert off < PAGE_SIZE;
    ret := prpage + off;
    var fl := Load(mem, ret);
    assert FreeChain(mem, prpage, pg.kind, fl, pg.free[1..]);
    n' := n - 1;
    if fl != 0 {
      assert n' > 0;
      BlockOnPage(pg.kind, pg.free[1..][0]);
      assert fl - prpage < PAGE_SIZE;
      off' := fl - prpage;
    } else {
      assert n' == 0;
      off' := INVALID_OFFSET;
    }
  }

  /** blocktype: the first block size that fits. */
  method BlockType(sz: nat) returns (k: nat)
    requires sz <= LARGEST_SUBPAGE_SIZE
    ensures k < NSIZES && sz <= SizeOf(k) && forall j: nat :: j < k ==> SizeOf(j) < sz
  {
    k := 0;
    SizeTable();
    while k < NSIZES
      invariant k < NSIZES && forall j: nat :: j < k ==> SizeOf(j) < sz
      decreases NSIZES - k
    {
      if sz <= SizeOf(k) {
        return;
      }
      assert k != 7;
      k := k + 1;
    }
  }

  /** fill_deadbeef: a block's words, and nothing else. */
  method FillDeadbeef(mem: map<nat, nat>, a: nat, len: nat) returns (mem': map<nat, nat>)
    ensures SameOutside(mem, mem', a, a + len)
    ensures forall i: nat :: i < len / 4 ==> Load(mem', a + 4 * i) == DEADBEEF
  {
    mem' := mem;
    var i := 0;
    while i < len / 4
      invariant i <= len / 4 && SameOutside(mem, mem', a, a + len)
      invariant forall j: nat :: j < i ==> Load(mem', a + 4 * j) == DEADBEEF
    {
      mem' := mem'[a + 4 * i := DEADBEEF];
      i := i + 1;
    }
  }

  /** The words of a block behind its first are 0xdeadbeef. */
  ghost predicate Wiped(mem: map<nat, nat>, a: nat, len: nat) {
    forall i: nat :: 0 < i < len / 4 ==> Load(mem, a + 4 * i) == DEADBEEF
  }

  /** A block is filled, and its first word is the link. */
  method WipeBlock(mem: map<nat, nat>, a: nat, len: nat, next: nat) returns (mem': map<nat, nat>)
    requires len > 0
    ensures SameOutside(mem, mem', a, a + len) && Wiped(mem', a, len) && Load(mem', a) == next
  {
    var filled := FillDeadbeef(mem, a, len);
    mem' := filled[a := next];
    forall i: nat | 0 < i < len / 4 ensures Load(mem', a + 4 * i) == DEADBEEF {
      assert Load(filled, a + 4 * i) == DEADBEEF;
    }
  }

  /** The pointer work of subpage_kfree on one page: fill the block and put it at the head. */
  method PutBack(mem: map<nat, nat>, prpage: nat, k: nat, off: nat, n: nat, offset: nat, ghost pg: Page, ghost b: nat)
    returns (mem': map<nat, nat>)
    requires PageInv(mem, off, n, pg) && prpage == pg.addr && k == pg.kind && b in pg.used && offset == At(k, b)
    ensures PageInv(mem', offset, n + 1, AfterFree(pg, b))
    ensures SameOutside(mem, mem', prpage + offset, prpage + offset + SizeOf(k))
    ensures Wiped(mem', prpage + offset, SizeOf(k)) && Load(mem', prpage + offset) == if off == INVALID_OFFSET then 0 else prpage + off
    ensures b < NBlocks(k) && n + 1 <= NBlocks(k) && (n + 1 == NBlocks(k) <==> AfterFree(pg, b).used == map[])
  {
    PutBackFacts(mem, off, n, pg, b);
    var next := if off == INVALID_OFFSET then 0 else prpage + off;
    assert next != prpage + offset by { HeadIsFree(mem, off, n, pg); }
    mem' := WipeBlock(mem, prpage + offset, SizeOf(k), next);
    FreeFreeList(mem, mem', prpage, k, off, n, pg.free, b);
    assert PageInv(mem', offset, n + 1, AfterFree(pg, b));
    WhollyFree(mem', offset, n + 1, AfterFree(pg, b));
  }

  lemma PutBackFacts(mem: map<nat, nat>, off: nat, n: nat, pg: Page, b: nat)
    requires PageInv(mem, off, n, pg) && b in pg.used
    ensures pg.kind < NSIZES && pg.addr > 0 && b !in pg.free && b < NBlocks(pg.kind)
    ensures FreeOk(mem, pg.addr, pg.kind, off, n, pg.free) && Shared(AfterFree(pg, b))
  {
    assert InView(OnePage, true);
    FreeShared(pg, b);
  }

  /** The head of the free list is where the record says. */
  lemma HeadIsFree(mem: map<nat, nat>, off: nat, n: nat, pg: Page)
    requires PageInv(mem, off, n, pg)
    ensures off != INVALID_OFFSET ==> pg.free != [] && off == At(pg.kind, pg.free[0])
    ensures forall b, c :: b in pg.used && c in pg.free ==> At(pg.kind, b) != At(pg.kind, c)
  {
    assert InView(OnePage, true);
    forall b, c | b in pg.used && c in pg.free ensures At(pg.kind, b) != At(pg.kind, c) {
      BlocksApart(pg.kind, b, c);
    }
  }

  /** Writing inside one block of page p, with a new record for that page. */
  lemma PageRewritten(mem: map<nat, nat>, mem': map<nat, nat>, freeOff: seq<nat>, nfree: seq<nat>, pages: map<nat, Page>,
                      p: nat, off: nat, n: nat, pg: Page, b: nat)
    requires ContentsOk(mem, freeOff, nfree, pages) && PagesOk(pages) && p in pages && p < TOTAL
    requires PageInv(mem', off, n, pg)
    requires pages[p].kind < NSIZES && b < NBlocks(pages[p].kind)
    requires var a := pages[p].addr + At(pages[p].kind, b); SameOutside(mem, mem', a, a + SizeOf(pages[p].kind))
    ensures ContentsOk(mem', freeOff[p := off], nfree[p := n], pages[p := pg])
  {
    BlockOnPage(pages[p].kind, b);
    assert InView(Contents, true) && InView(Frames, true);
    var lo := pages[p].addr + At(pages[p].kind, b);
    forall q | q in pages && q != p ensures PageInv(mem', freeOff[q], nfree[q], pages[q]) {
      PagesApart(pages[p].addr, 0, pages[q].addr, 0);
      ElsewhereWrite(mem, mem', freeOff[q], nfree[q], pages[q], lo, lo + SizeOf(pages[p].kind));
    }
  }

  lemma Dropped(pab: seq<nat>, mem: map<nat, nat>, freeOff: seq<nat>, nfree: seq<nat>, pages: map<nat, Page>, p: nat)
    requires PabOk(pab, pages) && PagesOk(pages) && ContentsOk(mem, freeOff, nfree, pages) && InDemand(pages, {p})
    ensures PabOk(pab, pages - {p}) && PagesOk(pages - {p}) && ContentsOk(mem, freeOff, nfree, pages - {p})
    ensures InDemand(pages - {p}, {})
  {
  }

  lemma SizeListIs(nextSame: seq<Option<nat>>, sizebases: seq<Option<nat>>, pages: map<nat, Page>, bySize: seq<seq<nat>>, k: nat)
    requires SizeListsOk(nextSame, sizebases, pages, bySize) && k < NSIZES
    ensures SizeListOk(nextSame, sizebases[k], pages, bySize[k], k)
  {
    assert InView(SizeLists, true);
  }

  lemma AllListIs(nextAll: seq<Option<nat>>, allbase: Option<nat>, pages: map<nat, Page>, all: seq<nat>)
    requires AllListOk(nextAll, allbase, pages, all)
    ensures Chain(allbase, nextAll, all) && NoDup(all) && |nextAll| == TOTAL && forall p :: p in pages <==> p in all
  {
    assert InView(AllPages, true);
  }

  ghost predicate OnPage(pg: Page, a: nat) {
    pg.addr <= a < pg.addr + PAGE_SIZE
  }

  /** k is the smallest block size for sz. */
  ghost predicate Fits(k: nat, sz: nat) {
    k < NSIZES && sz <= SizeOf(k) && forall j: nat :: j < k ==> SizeOf(j) < sz
  }

  // ---------------------------------------------------------------- what clients see

  /** Block b of page p is handed out, at address a. */
  ghost predicate IsBlock(pages: map<nat, Page>, p: nat, b: nat, a: nat) {
    p in pages && b in pages[p].used && a == pages[p].addr + At(pages[p].kind, b)
  }

  /** A client holds n bytes at address a. */
  ghost predicate Live(pages: map<nat, Page>, a: nat, n: nat) {
    exists p, b :: IsBlock(pages, p, b, a) && pages[p].used[b] == n
  }

  /** The heap holds the page at address x. */
  ghost predicate Holds(pages: map<nat, Page>, x: nat) {
    exists p :: p in pages && pages[p].addr == x
  }

  /** Clients hold n bytes at a besides what they held before, where they held nothing at a. */
  ghost predicate Gains(pages: map<nat, Page>, pages': map<nat, Page>, a: nat, n: nat) {
    && (forall m :: !Live(pages, a, m))
    && (forall x, m :: Live(pages', x, m) <==> Live(pages, x, m) || (x == a && m == n))
  }

  /** All that the lemmas below need of the heap. */
  ghost predicate Sound(pages: map<nat, Page>) {
    && (forall p :: p in pages ==> PageOk(pages[p]) && Shared(pages[p]))
    && (forall p, q :: p in pages && q in pages && p != q ==> pages[p].addr != pages[q].addr)
  }

  lemma IsSound(pages: map<nat, Page>, mem: map<nat, nat>, freeOff: seq<nat>, nfree: seq<nat>)
    requires PagesOk(pages) && ContentsOk(mem, freeOff, nfree, pages)
    ensures Sound(pages)
  {
    assert InView(Frames, true) && InView(Contents, true) && InView(OnePage, true);
    assert forall p :: p in pages ==> p < TOTAL && PageInv(mem, freeOff[p], nfree[p], pages[p]);
  }

  /** Two blocks handed out never overlap. */
  lemma BlocksDisjoint(pages: map<nat, Page>, p: nat, b: nat, a: nat, p': nat, b': nat, a': nat)
    requires Sound(pages) && IsBlock(pages, p, b, a) && IsBlock(pages, p', b', a') && (p, b) != (p', b')
    ensures a + SizeOf(pages[p].kind) <= a' || a' + SizeOf(pages[p'].kind) <= a
  {
    if p == p' {
      BlocksApart(pages[p].kind, b, b');
    } else {
      BlockOnPage(pages[p].kind, b);
      BlockOnPage(pages[p'].kind, b');
      PagesApart(pages[p].addr, 0, pages[p'].addr, 0);
    }
  }

  lemma LiveApart(pages: map<nat, Page>, a: nat, n: nat, a': nat, n': nat)
    requires Sound(pages) && Live(pages, a, n) && Live(pages, a', n')
    ensures a != a' ==> a + n <= a' || a' + n' <= a
    ensures a == a' ==> n == n'
  {
    var p, b :| IsBlock(pages, p, b, a) && pages[p].used[b] == n;
    var p', b' :| IsBlock(pages, p', b', a') && pages[p'].used[b'] == n';
    if (p, b) != (p', b') {
      BlocksDisjoint(pages, p, b, a, p', b', a');
    }
  }

  /** pages' hands out one block more than pages. */
  ghost predicate OneMore(pages: map<nat, Page>, pages': map<nat, Page>, p: nat, b: nat) {
    && (forall q, c, x :: IsBlock(pages, q, c, x) <==> IsBlock(pages', q, c, x) && !(q == p && c == b))
    && (forall q, c, x :: IsBlock(pages, q, c, x) ==> pages'[q].used[c] == pages[q].used[c])
  }

  lemma OneMoreGains(pages: map<nat, Page>, pages': map<nat, Page>, p: nat, b: nat, a: nat)
    requires OneMore(pages, pages', p, b) && Sound(pages') && IsBlock(pages', p, b, a)
    ensures Gains(pages, pages', a, pages'[p].used[b])
  {
    forall m ensures !Live(pages, a, m) {
      if Live(pages, a, m) {
        var q, c :| IsBlock(pages, q, c, a) && pages[q].used[c] == m;
        BlocksDisjoint(pages', p, b, a, q, c, a);
      }
    }
    var n := pages'[p].used[b];
    forall x, m ensures Live(pages', x, m) <==> Live(pages, x, m) || (x == a && m == n) {
      if Live(pages', x, m) {
        var q, c :| IsBlock(pages', q, c, x) && pages'[q].used[c] == m;
        if !(q == p && c == b) {
          assert IsBlock(pages, q, c, x) && pages[q].used[c] == m;
        }
      }
      if Live(pages, x, m) {
        var q, c :| IsBlock(pages, q, c, x) && pages[q].used[c] == m;
        assert IsBlock(pages', q, c, x) && pages'[q].used[c] == m;
      }
    }
  }

  lemma AllocGains(pages: map<nat, Page>, p: nat, sz: nat, a: nat)
    requires p in pages && pages[p].free != [] && pages[p].free[0] !in pages[p].used
    requires a == pages[p].addr + At(pages[p].kind, pages[p].free[0])
    requires Sound(pages[p := AfterAlloc(pages[p], sz)])
    ensures Gains(pages, pages[p := AfterAlloc(pages[p], sz)], a, sz)
    ensures forall x :: Holds(pages[p := AfterAlloc(pages[p], sz)], x) <==> Holds(pages, x)
  {
    var pages', b := pages[p := AfterAlloc(pages[p], sz)], pages[p].free[0];
    assert OneMore(pages, pages', p, b);
    OneMoreGains(pages, pages', p, b, a);
    SameHolds(pages, pages');
  }

  lemma SameHolds(pages: map<nat, Page>, pages': map<nat, Page>)
    requires SameFrame(pages, pages')
    ensures forall x :: Holds(pages', x) <==> Holds(pages, x)
  {
    forall x ensures Holds(pages', x) <==> Holds(pages, x) {
      if p :| p in pages && pages[p].addr == x {
        assert p in pages' && pages'[p].addr == x;
      }
      if p :| p in pages' && pages'[p].addr == x {
        assert p in pages && pages[p].addr == x;
      }
    }
  }

  lemma FreshGains(pages: map<nat, Page>, pages': map<nat, Page>, p: nat, pg: Page, sz: nat, a: nat)
    requires p !in pages && pg.used == map[] && pg.free != [] && a == pg.addr + At(pg.kind, pg.free[0])
    requires Sound(pages') && pages' == pages[p := AfterAlloc(pg, sz)]
    ensures Gains(pages, pages', a, sz)
    ensures forall x :: Holds(pages', x) <==> Holds(pages, x) || x == pg.addr
  {
    assert OneMore(pages, pages', p, pg.free[0]);
    OneMoreGains(pages, pages', p, pg.free[0], a);
    forall x ensures Holds(pages', x) <==> Holds(pages, x) || x == pg.addr {
      if q :| q in pages && pages[q].addr == x {
        assert q in pages' && pages'[q].addr == x;
      }
      if x == pg.addr {
        assert p in pages' && pages'[p].addr == x;
      }
    }
  }

  lemma FreeGains(pages: map<nat, Page>, p: nat, b: nat, a: nat, mem: map<nat, nat>, mem': map<nat, nat>)
    requires Sound(pages) && IsBlock(pages, p, b, a) && SameOutside(mem, mem', a, a + SizeOf(pages[p].kind))
    ensures var pages' := pages[p := AfterFree(pages[p], b)];
            && Gains(pages', pages, a, pages[p].used[b]) && KeepsData(pages', mem, mem')
            && forall x :: Holds(pages', x) <==> Holds(pages, x)
  {
    var pages' := pages[p := AfterFree(pages[p], b)];
    assert OneMore(pages', pages, p, b);
    OneMoreGains(pages', pages, p, b, a);
    SameHolds(pages, pages');
    FreeKeepsData(pages, pages', p, b, a, mem, mem');
  }

  lemma ReleaseGains(pages: map<nat, Page>, p: nat, b: nat, a: nat, mem: map<nat, nat>, mem': map<nat, nat>)
    requires Sound(pages) && IsBlock(pages, p, b, a) && SameOutside(mem, mem', a, a + SizeOf(pages[p].kind))
    requires AfterFree(pages[p], b).used == map[]
    ensures Gains(pages - {p}, pages, a, pages[p].used[b]) && KeepsData(pages - {p}, mem, mem')
    ensures forall x :: Holds(pages - {p}, x) <==> Holds(pages, x) && x != pages[p].addr
  {
    var left := AfterFree(pages[p], b).used;
    forall c | c in pages[p].used ensures c == b {
      assert c != b ==> c in left;
    }
    assert OneMore(pages - {p}, pages, p, b);
    OneMoreGains(pages - {p}, pages, p, b, a);
    FreeKeepsData(pages, pages - {p}, p, b, a, mem, mem');
    forall x ensures Holds(pages - {p}, x) <==> Holds(pages, x) && x != pages[p].addr {
      if q :| q in pages && pages[q].addr == x && q != p {
        assert q in pages - {p};
      }
    }
  }

  /** No other block is handed out on the page of address a. */
  ghost predicate OnlyLive(pages: map<nat, Page>, a: nat) {
    forall x: nat, n: nat :: Live(pages, x, n) && PageAddr(x) == PageAddr(a) ==> x == a
  }

  /** Some page of the block size for sz has a free block. */
  ghost predicate Room(pages: map<nat, Page>, sz: nat) {
    exists p :: p in pages && Fits(pages[p].kind, sz) && pages[p].free != []
  }

  lemma PageOfBlock(pages: map<nat, Page>, p: nat, b: nat, a: nat)
    requires Sound(pages) && IsBlock(pages, p, b, a)
    ensures PageAddr(a) == pages[p].addr && a % 16 == 0
  {
    BlockOnPage(pages[p].kind, b);
    AtAligned(pages[p].kind, b);
    AlignedSum(pages[p].addr, At(pages[p].kind, b));
  }

  /** Freeing a block leaves its page wholly free exactly if no other block is handed out there. */
  lemma LastBlock(pages: map<nat, Page>, p: nat, b: nat, a: nat)
    requires Sound(pages) && IsBlock(pages, p, b, a)
    ensures AfterFree(pages[p], b).used == map[] <==> OnlyLive(pages, a)
  {
    PageOfBlock(pages, p, b, a);
    var left := AfterFree(pages[p], b).used;
    if left == map[] {
      forall x: nat, n: nat | Live(pages, x, n) && PageAddr(x) == PageAddr(a) ensures x == a {
        var q, c :| IsBlock(pages, q, c, x) && pages[q].used[c] == n;
        PageOfBlock(pages, q, c, x);
        assert c != b ==> c in left;
      }
    } else {
      var c :| c in left;
      OtherBlock(pages, p, b, a, c);
    }
  }

  /** The block that was handed out at address a, all of it, reads 0xdeadbeef behind its first word. */
  ghost predicate BlockWiped(pages: map<nat, Page>, mem: map<nat, nat>, a: nat) {
    forall p, b: nat :: IsBlock(pages, p, b, a) ==> Wiped(mem, a, SizeOf(pages[p].kind))
  }

  lemma WipedIs(pages: map<nat, Page>, mem: map<nat, nat>, p: nat, b: nat, a: nat)
    requires Sound(pages) && IsBlock(pages, p, b, a) && Wiped(mem, a, SizeOf(pages[p].kind))
    ensures BlockWiped(pages, mem, a)
  {
    forall q, c: nat | IsBlock(pages, q, c, a) ensures Wiped(mem, a, SizeOf(pages[q].kind)) {
      if (q, c) != (p, b) {
        BlocksDisjoint(pages, p, b, a, q, c, a);
      }
    }
  }

  lemma OtherBlock(pages: map<nat, Page>, p: nat, b: nat, a: nat, c: nat)
    requires Sound(pages) && IsBlock(pages, p, b, a) && c in pages[p].used && c != b
    ensures !OnlyLive(pages, a)
  {
    var x := pages[p].addr + At(pages[p].kind, c);
    assert IsBlock(pages, p, c, x) && Live(pages, x, pages[p].used[c]);
    PageOfBlock(pages, p, b, a);
    PageOfBlock(pages, p, c, x);
    BlocksApart(pages[p].kind, b, c);
  }

  ghost predicate SameInside(mem: map<nat, nat>, mem': map<nat, nat>, lo: nat, hi: nat) {
    forall x: nat :: lo <= x < hi ==> Load(mem', x) == Load(mem, x)
  }

  /** What clients hold reads the same. */
  ghost predicate KeepsData(pages: map<nat, Page>, mem: map<nat, nat>, mem': map<nat, nat>) {
    forall a: nat, n: nat :: Live(pages, a, n) ==> SameInside(mem, mem', a, a + n)
  }

  lemma FreeKeepsData(pages: map<nat, Page>, pages': map<nat, Page>, p: nat, b: nat, a: nat, mem: map<nat, nat>, mem': map<nat, nat>)
    requires Sound(pages) && IsBlock(pages, p, b, a) && OneMore(pages', pages, p, b)
    requires SameOutside(mem, mem', a, a + SizeOf(pages[p].kind))
    ensures KeepsData(pages', mem, mem')
  {
    forall y: nat, n: nat | Live(pages', y, n) ensures SameInside(mem, mem', y, y + n) {
      var q, c :| IsBlock(pages', q, c, y) && pages'[q].used[c] == n;
      assert IsBlock(pages, q, c, y);
      BlocksDisjoint(pages, p, b, a, q, c, y);
    }
  }

  lemma FreshKeepsData(pages: map<nat, Page>, prpage: nat, mem: map<nat, nat>, mem': map<nat, nat>)
    requires Sound(pages) && prpage % PAGE_SIZE == 0 && forall p :: p in pages ==> pages[p].addr != prpage
    requires SameOutside(mem, mem', prpage, prpage + PAGE_SIZE)
    ensures KeepsData(pages, mem, mem')
  {
    forall y: nat, n: nat | Live(pages, y, n) ensures SameInside(mem, mem', y, y + n) {
      var q, c :| IsBlock(pages, q, c, y) && pages[q].used[c] == n;
      AwayFrom(pages, q, c, prpage);
    }
  }

  lemma AwayFrom(pages: map<nat, Page>, q: nat, c: nat, prpage: nat)
    requires Sound(pages) && q in pages && c in pages[q].used && prpage % PAGE_SIZE == 0 && pages[q].addr != prpage
    ensures var a := pages[q].addr + At(pages[q].kind, c);
            a + pages[q].used[c] <= prpage || prpage + PAGE_SIZE <= a
  {
    BlockOnPage(pages[q].kind, c);
    PagesApart(prpage, 0, pages[q].addr, 0);
  }

  lemma NoneFree(mem: map<nat, nat>, freeOff: seq<nat>, nfree: seq<nat>, pages: map<nat, Page>, k: nat)
    requires ContentsOk(mem, freeOff, nfree, pages)
    requires forall p :: p in pages && pages[p].kind == k ==> p < TOTAL && nfree[p] == 0
    ensures forall p :: p in pages && pages[p].kind == k ==> pages[p].free == []
  {
    assert InView(Contents, true) && InView(OnePage, true);
    forall p | p in pages && pages[p].kind == k ensures pages[p].free == [] {
      assert PageInv(mem, freeOff[p], nfree[p], pages[p]);
    }
  }

  /** Every block handed out starts at a multiple of its size on its page. */
  lemma NotLive(pages: map<nat, Page>, p: nat, a: nat)
    requires Sound(pages) && p in pages && OnPage(pages[p], a) && (a - pages[p].addr) % SizeOf(pages[p].kind) != 0
    ensures forall n :: !Live(pages, a, n)
  {
    forall q, b ensures !IsBlock(pages, q, b, a) {
      if IsBlock(pages, q, b, a) {
        BlockOnPage(pages[q].kind, b);
        if q != p {
          PagesApart(pages[p].addr, 0, pages[q].addr, 0);
        }
      }
    }
  }

  lemma OffPages(pages: map<nat, Page>, a: nat)
    requires Sound(pages) && forall p :: p in pages ==> !OnPage(pages[p], a)
    ensures forall n :: !Live(pages, a, n)
  {
    forall q, b ensures !IsBlock(pages, q, b, a) {
      if IsBlock(pages, q, b, a) {
        BlockOnPage(pages[q].kind, b);
      }
    }
  }

  lemma NullNotLive(pages: map<nat, Page>)
    requires Sound(pages)
    ensures forall n :: !Live(pages, 0, n)
  {
  }

  lemma StoreKeeps(mem: map<nat, nat>, freeOff: seq<nat>, nfree: seq<nat>, pages: map<nat, Page>, p: nat, b: nat, addr: nat, v: nat)
    requires ContentsOk(mem, freeOff, nfree, pages) && PagesOk(pages) && p in pages && b in pages[p].used
    requires var a := pages[p].addr + At(pages[p].kind, b); a <= addr < a + pages[p].used[b]
    ensures ContentsOk(mem[addr := v], freeOff, nfree, pages)
  {
    IsSound(pages, mem, freeOff, nfree);
    ContentsAt(mem, freeOff, nfree, pages, p);
    ClientWrite(mem, mem[addr := v], freeOff[p], nfree[p], pages[p], b);
    PageRewritten(mem, mem[addr := v], freeOff, nfree, pages, p, freeOff[p], nfree[p], pages[p], b);
    assert freeOff[p := freeOff[p]] == freeOff && nfree[p := nfree[p]] == nfree && pages[p := pages[p]] == pages;
  }

  lemma {:induction false} SizeAligned(k: nat)
    ensures SizeOf(k) % 16 == 0
  {
    if k != 0 {
      SizeAligned(k - 1);
    }
  }

  lemma AlignedSum(x: nat, o: nat)
    requires x % PAGE_SIZE == 0 && o < PAGE_SIZE && o % 16 == 0
    ensures (x + o) % 16 == 0 && PageAddr(x + o) == x
  {
    var q, r := x / PAGE_SIZE, o / 16;
    assert x + o == 16 * (256 * q + r) && x + o == PAGE_SIZE * q + o;
  }

  lemma {:induction false} AtAligned(k: nat, b: nat)
    ensures At(k, b) % 16 == 0
  {
    if b != 0 {
      AtAligned(k, b - 1);
      SizeAligned(k);
    }
  }

  // ---------------------------------------------------------------- whole pages

  /** The pages asked for a big allocation; size_t wraps. */
  function PagesFor(sz: nat): nat {
    (sz + PAGE_SIZE - 1) % ADDRESSES / PAGE_SIZE
  }

  /** They hold sz bytes, with less than a page to spare, except for sizes within a page of the top of
      the address space, where the sum wraps and no page is asked for. */
  lemma PagesForEnough(sz: nat)
    requires sz < ADDRESSES
    ensures PagesFor(sz) * PAGE_SIZE >= sz <==> sz <= ADDRESSES - PAGE_SIZE
    ensures sz <= ADDRESSES - PAGE_SIZE ==> PagesFor(sz) * PAGE_SIZE < sz + PAGE_SIZE
    ensures sz > ADDRESSES - PAGE_SIZE ==> PagesFor(sz) == 0
  {
    var t := sz + PAGE_SIZE - 1;
    if sz <= ADDRESSES - PAGE_SIZE {
      assert t % ADDRESSES == t;
    } else {
      assert t % ADDRESSES == t - ADDRESSES;
    }
  }

  /** How a subpage free ends: the block's page stays, or goes back to free_kpages. */
  datatype FreeOutcome = NotOurs | Panicked | Kept | Released(page: nat)

  class KHeap {
    // struct pageref, one sequence per field, indexed by record
    var nextSame: seq<Option<nat>>
    var nextAll: seq<Option<nat>>
    var pab: seq<nat>
    var freeOff: seq<nat>
    var nfree: seq<nat>
    // list heads, page record pool, memory
    var sizebases: seq<Option<nat>>
    var allbase: Option<nat>
    const pool: Pool
    var mem: map<nat, nat>
    // what they stand for
    ghost var pages: map<nat, Page>
    ghost var all: seq<nat>
    ghost var bySize: seq<seq<nat>>

    /** Lists, packed words, free lists and memory agree on the pages; only those in `spare` may be
        wholly free. */
    ghost predicate Listed(spare: set<nat>)
      reads this
    {
      && true == PabOk(pab, pages) == PagesOk(pages)
      && true == AllListOk(nextAll, allbase, pages, all) == SizeListsOk(nextSame, sizebases, pages, bySize)
      && true == ContentsOk(mem, freeOff, nfree, pages) == InDemand(pages, spare)
    }

    /** The records in use are those of the listed pages, besides the leaked and the pending ones. */
    ghost predicate PoolAgrees()
      reads this, pool
    {
      && pool.Valid() && pool.taken == pages.Keys + pool.leaked + pool.pending
      && pages.Keys !! pool.leaked && pages.Keys !! pool.pending
    }

    ghost predicate Valid()
      reads this, pool
    {
      Listed({}) && PoolAgrees()
    }

    constructor ()
      ensures Valid() && pages == map[] && fresh(pool) && pool.leaked == pool.pending == {}
    {
      nextSame, nextAll := seq(TOTAL, _ => None), seq(TOTAL, _ => None);
      pab, freeOff, nfree := seq(TOTAL, _ => 0), seq(TOTAL, _ => 0), seq(TOTAL, _ => 0);
      sizebases, allbase, mem := seq(NSIZES, _ => None), None, map[];
      pool := new Pool();
      pages, all, bySize := map[], [], seq(NSIZES, _ => []);
      new;
      assert pool.taken == pages.Keys + pool.leaked + pool.pending;
    }

    /** The label doalloc: hand out the head of a page's free list. */
    method DoAlloc(pr: nat, sz: nat) returns (ret: nat)
      requires Listed({pr}) && PoolAgrees()
      requires pr in pages && pr < TOTAL && nfree[pr] > 0 && sz <= SizeOf(pages[pr].kind)
      modifies this
      ensures Valid() && mem == old(mem)
      ensures old(pages[pr].free) != [] && pages == old(pages)[pr := AfterAlloc(old(pages)[pr], sz)]
      ensures ret == old(pages)[pr].addr + At(old(pages)[pr].kind, old(pages)[pr].free[0])
      ensures old(pages)[pr].free[0] !in old(pages)[pr].used
    {
      ghost var pg := pages[pr];
      PageAt(pages, pab, pr);
      ContentsAt(mem, freeOff, nfree, pages, pr);
      var off': nat, n': nat;
      ret, off', n' := TakeHead(mem, PageAddr(pab[pr]), freeOff[pr], nfree[pr], pg, sz);
      Replaced(pab, nextAll, allbase, nextSame, sizebases, all, bySize, pages, pr, AfterAlloc(pg, sz));
      UpdatePage(mem, freeOff, nfree, pages, pr, off', n', AfterAlloc(pg, sz));
      assert pg.free[0] in AfterAlloc(pg, sz).used;
      StillInDemand(pages, pr, AfterAlloc(pg, sz));
      nfree, freeOff := nfree[pr := n'], freeOff[pr := off'];
      pages := pages[pr := AfterAlloc(pg, sz)];
    }

    /** The search loop of subpage_kmalloc, up to the first page of the right type with a free block. */
    method FindSpace(blktype: nat) returns (r: Option<nat>)
      requires Valid() && blktype < NSIZES
      ensures r.Some? ==> r.value in pages && r.value < TOTAL && pages[r.value].kind == blktype && nfree[r.value] > 0
      ensures r.None? ==> forall p :: p in pages && pages[p].kind == blktype ==> p < TOTAL && nfree[p] == 0
    {
      ghost var s := bySize[blktype];
      ghost var i := 0;
      SizeListAt(nextSame, sizebases, pages, bySize, blktype, 0);
      r := sizebases[blktype];
      while r.Some?
        invariant r == if i < |s| then Some(s[i]) else None
        invariant i <= |s| && forall j :: 0 <= j < i ==> s[j] < TOTAL && nfree[s[j]] == 0
        decreases |s| - i
      {
        var pr := r.value;
        SizeListAt(nextSame, sizebases, pages, bySize, blktype, i);
        PageAt(pages, pab, pr);
        assert TypeOf(pab[pr]) == blktype;
        if nfree[pr] > 0 {
          return;
        }
        r := nextSame[pr];
        i := i + 1;
      }
    }

    /** The search loop of subpage_kfree: the page an address lies on. */
    method FindPage(ptraddr: nat) returns (r: Option<nat>)
      requires Valid()
      ensures r.Some? ==> r.value in pages && r.value < TOTAL && OnPage(pages[r.value], ptraddr)
      ensures r.None? ==> forall p :: p in pages ==> !OnPage(pages[p], ptraddr)
    {
      ghost var i := 0;
      AllListAt(nextAll, allbase, pages, all, 0);
      r := allbase;
      while r.Some?
        invariant r == if i < |all| then Some(all[i]) else None
        invariant i <= |all| && forall j :: 0 <= j < i ==> all[j] in pages && !OnPage(pages[all[j]], ptraddr)
        decreases |all| - i
      {
        var pr := r.value;
        AllListAt(nextAll, allbase, pages, all, i);
        PageAt(pages, pab, pr);
        var prpage := PageAddr(pab[pr]);
        assert TypeOf(pab[pr]) < NSIZES;
        if ptraddr >= prpage && ptraddr < prpage + PAGE_SIZE {
          return;
        }
        r := nextAll[pr];
        i := i + 1;
      }
    }

    /** A fresh page's blocks are linked and its record pr filled in. */
    method FillRecord(pr: nat, prpage: nat, blktype: nat)
      requires Listed({}) && pr < TOTAL && pr !in pages && blktype < NSIZES && Spare(prpage)
      modifies `mem, `pab, `freeOff, `nfree
      ensures Listed({}) && PageAddr(pab[pr]) == prpage && TypeOf(pab[pr]) == blktype
      ensures nfree[pr] == NBlocks(blktype) && PageInv(mem, freeOff[pr], nfree[pr], FreshPage(prpage, blktype))
      ensures SameOutside(old(mem), mem, prpage, prpage + PAGE_SIZE)
    {
      var w := MkPab(prpage, blktype);
      var mem', off := LinkBlocks(mem, prpage, blktype);
      ContentsElsewhere(mem, mem', freeOff, nfree, pages, prpage);
      UnusedRecord(pab, mem', freeOff, nfree, pages, pr, w, off, NBlocks(blktype));
      mem, pab, nfree, freeOff := mem', pab[pr := w], nfree[pr := NBlocks(blktype)], freeOff[pr := off];
    }

    /** The record goes to the front of both lists. */
    method PushLists(pr: nat, ghost prpage: nat, blktype: nat)
      requires Listed({}) && pr < TOTAL && pr !in pages && blktype < NSIZES && Spare(prpage)
      requires PageAddr(pab[pr]) == prpage && TypeOf(pab[pr]) == blktype
      requires PageInv(mem, freeOff[pr], nfree[pr], FreshPage(prpage, blktype))
      modifies `nextAll, `allbase, `nextSame, `sizebases, `pages, `all, `bySize
      ensures Listed({pr}) && pages == old(pages)[pr := FreshPage(prpage, blktype)]
    {
      ghost var pg := FreshPage(prpage, blktype);
      NewPage(pages, pab, pr, pg);
      NewContents(mem, freeOff, nfree, pages, pr, pg);
      PushAll(nextAll, allbase, pages, all, pr, pg);
      PushSize(nextSame, sizebases, pages, bySize, pr, pg);
      nextSame, sizebases := nextSame[pr := sizebases[blktype]], sizebases[blktype := Some(pr)];
      nextAll, allbase := nextAll[pr := allbase], Some(pr);
      pages, all, bySize := pages[pr := pg], [pr] + all, bySize[blktype := [pr] + bySize[blktype]];
    }

    /** An address that alloc_kpages may answer with: a page not on our lists. */
    ghost predicate Spare(prpage: nat)
      reads this
    {
      && prpage % PAGE_SIZE == 0 && 0 < prpage <= ADDRESSES - PAGE_SIZE
      && forall p :: p in pages ==> pages[p].addr != prpage
    }

    /** A record is set up for the page, and a block handed out. */
    method InstallPage(pr: nat, prpage: nat, blktype: nat, sz: nat) returns (ret: nat)
      requires Listed({}) && pr < TOTAL && pr !in pages && blktype < NSIZES && sz <= SizeOf(blktype) && Spare(prpage)
      requires pool.Valid() && pool.taken == pages.Keys + {pr} + pool.leaked + pool.pending
      requires pages.Keys + {pr} !! pool.leaked && pages.Keys + {pr} !! pool.pending
      modifies this
      ensures Valid() && pages == old(pages)[pr := AfterAlloc(FreshPage(prpage, blktype), sz)]
      ensures SameOutside(old(mem), mem, prpage, prpage + PAGE_SIZE)
      ensures FreshPage(prpage, blktype).free != [] && ret == prpage + At(blktype, FreshPage(prpage, blktype).free[0])
    {
      FillRecord(pr, prpage, blktype);
      PushLists(pr, prpage, blktype);
      assert pages.Keys == old(pages).Keys + {pr};
      ret := DoAlloc(pr, sz);
    }

    /** The block that starts at `offset` on page pr is put back. */
    method PutBlock(pr: nat, offset: nat, ghost b: nat)
      requires Listed({}) && pr in pages && pr < TOTAL && b in pages[pr].used && offset == At(pages[pr].kind, b)
      modifies `mem, `freeOff, `nfree, `pages
      ensures Listed({pr}) && pages == old(pages)[pr := AfterFree(old(pages)[pr], b)]
      ensures pages.Keys == old(pages).Keys
      ensures nfree[pr] <= NBlocks(pages[pr].kind)
      ensures (nfree[pr] == NBlocks(pages[pr].kind) <==> pages[pr].used == map[])
      ensures SameOutside(old(mem), mem, pages[pr].addr + offset, pages[pr].addr + offset + SizeOf(pages[pr].kind))
      ensures Wiped(mem, pages[pr].addr + offset, SizeOf(pages[pr].kind))
    {
      ghost var pg := pages[pr];
      PageAt(pages, pab, pr);
      ContentsAt(mem, freeOff, nfree, pages, pr);
      var mem' := PutBack(mem, PageAddr(pab[pr]), TypeOf(pab[pr]), freeOff[pr], nfree[pr], offset, pg, b);
      PageRewritten(mem, mem', freeOff, nfree, pages, pr, offset, nfree[pr] + 1, AfterFree(pg, b), b);
      Replaced(pab, nextAll, allbase, nextSame, sizebases, all, bySize, pages, pr, AfterFree(pg, b));
      NewSpare(pages, pr, AfterFree(pg, b));
      var freeOff', nfree' := freeOff[pr := offset], nfree[pr := nfree[pr] + 1];
      ghost var pages' := pages[pr := AfterFree(pg, b)];
      assert ContentsOk(mem', freeOff', nfree', pages');
      mem, freeOff, nfree, pages := mem', freeOff', nfree', pages';
    }

    method LeaveSizeList(pr: nat, blktype: nat)
      requires SizeListsOk(nextSame, sizebases, pages, bySize) && pr in pages && pages[pr].kind == blktype < NSIZES
      modifies `nextSame, `sizebases, `bySize
      ensures SizeListsOk(nextSame, sizebases, pages - {pr}, bySize)
    {
      SizeListIs(nextSame, sizebases, pages, bySize, blktype);
      var base', nextSame', i := Unlink(sizebases[blktype], nextSame, pr, bySize[blktype]);
      RemovedSize(nextSame, sizebases, pages, bySize, pr, i, nextSame', base');
      sizebases, nextSame := sizebases[blktype := base'], nextSame';
      bySize := bySize[blktype := Without(bySize[blktype], i)];
    }

    method LeaveAllList(pr: nat)
      requires AllListOk(nextAll, allbase, pages, all) && pr in pages
      modifies `nextAll, `allbase, `all
      ensures AllListOk(nextAll, allbase, pages - {pr}, all)
    {
      AllListIs(nextAll, allbase, pages, all);
      var allbase', nextAll', j := Unlink(allbase, nextAll, pr, all);
      RemovedAll(nextAll, allbase, pages, all, pr, j, nextAll', allbase');
      allbase, nextAll, all := allbase', nextAll', Without(all, j);
    }

    /** remove_lists: the page leaves both of its lists. */
    method RemoveLists(pr: nat, blktype: nat)
      requires Listed({pr}) && pr in pages && blktype == pages[pr].kind && blktype < NSIZES
      modifies `nextAll, `allbase, `nextSame, `sizebases, `pages, `all, `bySize
      ensures Listed({}) && pages == old(pages) - {pr}
    {
      LeaveSizeList(pr, blktype);
      LeaveAllList(pr);
      Dropped(pab, mem, freeOff, nfree, pages, pr);
      pages := pages - {pr};
    }

    /** First critical section of kmalloc for small sizes: a block of a listed page, if one is free. */
    method TryAlloc(sz: nat) returns (ret: nat)
      requires Valid() && sz < LARGEST_SUBPAGE_SIZE
      modifies this
      ensures Valid() && mem == old(mem) && forall x :: Holds(pages, x) <==> Holds(old(pages), x)
      ensures ret != 0 ==> Gains(old(pages), pages, ret, sz)
      ensures ret == 0 ==> pages == old(pages)
      ensures ret != 0 <==> Room(old(pages), sz)
    {
      var blktype := BlockType(sz);
      assert Fits(blktype, sz);
      var r := FindSpace(blktype);
      ret := 0;
      if r.Some? {
        PageAt(pages, pab, r.value);
        FewerSpare(pages, {r.value});
        ret := DoAlloc(r.value, sz);
        IsSound(pages, mem, freeOff, nfree);
        AllocGains(old(pages), r.value, sz, ret);
        assert Fits(old(pages)[r.value].kind, sz);
      } else {
        NoneFree(mem, freeOff, nfree, pages, blktype);
        assert forall k :: Fits(k, sz) ==> k == blktype;
      }
    }

    /** Second critical section, with a page to hand: the first free record is reserved.  The lock is
        given up behind it if the record's root has no page yet. */
    method ReserveRecord() returns (r: Option<nat>)
      requires Valid()
      modifies pool
      ensures Valid() && pool.leaked == old(pool.leaked) && pool.pages == old(pool.pages)
      ensures r.Some? ==> r.value !in old(pool.taken) && pool.pending == old(pool.pending) + {r.value}
      ensures r.None? ==> pool.pending == old(pool.pending) && forall q :: 0 <= q < TOTAL ==> q in pool.taken
    {
      r := pool.Reserve();
    }

    /** Third critical section, with the page alloc_kpages answered with and the one it gave for records
        (0 for none): record pr is set up for the page, or lost and the page goes back.  `back` is the
        other page, if the root has got one meanwhile. */
    method AllocOnPage(sz: nat, prpage: nat, pr: nat, va: nat) returns (ret: nat, back: nat)
      requires Valid() && sz < LARGEST_SUBPAGE_SIZE && Spare(prpage) && pr in pool.pending
      modifies this, pool
      ensures Valid() && pool.pending == old(pool.pending) - {pr} && pr / REFS_PER_PAGE < |old(pool.pages)|
      ensures ret == 0 <==> old(pool.pages)[pr / REFS_PER_PAGE] == va == 0
      ensures back == if old(pool.pages)[pr / REFS_PER_PAGE] == 0 then 0 else va
      ensures pool.leaked == if ret == 0 then old(pool.leaked) + {pr} else old(pool.leaked)
      ensures ret != 0 ==> Gains(old(pages), pages, ret, sz)
      ensures ret != 0 ==> forall x :: Holds(pages, x) <==> Holds(old(pages), x) || x == prpage
      ensures ret == 0 ==> pages == old(pages) && mem == old(mem)
      ensures KeepsData(old(pages), old(mem), mem)
    {
      var blktype := BlockType(sz);
      var r;
      r, back := pool.Settle(pr, va);
      if r.None? {
        return 0, back;
      }
      IsSound(pages, mem, freeOff, nfree);
      ret := InstallPage(pr, prpage, blktype, sz);
      FreshKeepsData(old(pages), prpage, old(mem), mem);
      IsSound(pages, mem, freeOff, nfree);
      FreshGains(old(pages), pages, pr, FreshPage(prpage, blktype), sz, ret);
    }

    /** What kfree demands: a pointer on one of our pages, at a block boundary, is a block handed out. */
    ghost predicate MayFree(a: nat)
      reads this
    {
      forall p :: p in pages && OnPage(pages[p], a) && (a - pages[p].addr) % SizeOf(pages[p].kind) == 0 ==>
        exists b :: IsBlock(pages, p, b, a)
    }

    /** freepageref's scan gets to the record of the page of address a. */
    ghost predicate RecordReachable(a: nat)
      reads this, pool
    {
      forall p :: p in pages && pages[p].addr == PageAddr(a) ==> pool.Reachable(p)
    }

    /** subpage_kfree, once the block has been found. */
    method FreeBlock(pr: nat, prpage: nat, blktype: nat, offset: nat, ghost b: nat) returns (r: FreeOutcome)
      requires Valid() && pr in pages && pr < TOTAL && IsBlock(pages, pr, b, prpage + offset)
      requires prpage == pages[pr].addr && blktype == pages[pr].kind && blktype < NSIZES
      modifies this, pool
      ensures r != NotOurs && pool.leaked == old(pool.leaked) && pool.pending == old(pool.pending)
      ensures r == Kept <==> AfterFree(old(pages)[pr], b).used != map[]
      ensures r == Panicked <==> AfterFree(old(pages)[pr], b).used == map[] && !old(pool.Reachable(pr))
      ensures r == Panicked ==> exists root: nat :: WholeRoot(pool.leaked + pool.pending, root)
      ensures r != Panicked ==> Valid()
      ensures r == Kept ==> pages == old(pages)[pr := AfterFree(old(pages)[pr], b)]
      ensures r.Released? ==> pages == old(pages) - {pr} && r.page == prpage
      ensures SameOutside(old(mem), mem, prpage + offset, prpage + offset + SizeOf(blktype))
      ensures Wiped(mem, prpage + offset, SizeOf(blktype))
    {
      PutBlock(pr, offset, b);
      if nfree[pr] == NBlocks(blktype) {
        RemoveLists(pr, blktype);
        var ok := pool.Free(pr);
        return if ok then Released(prpage) else Panicked;
      }
      StillInDemand(old(pages), pr, pages[pr]);
      return Kept;
    }

    /** The same, in terms of what clients hold. */
    method FreeFound(pr: nat, prpage: nat, blktype: nat, offset: nat, ghost b: nat, ghost a: nat) returns (r: FreeOutcome)
      requires Valid() && Sound(pages) && pr in pages && pr < TOTAL && IsBlock(pages, pr, b, a) && a == prpage + offset
      requires prpage == pages[pr].addr && blktype == pages[pr].kind && blktype < NSIZES
      modifies this, pool
      ensures r != NotOurs && pool.leaked == old(pool.leaked) && pool.pending == old(pool.pending)
      ensures r == Kept <==> !OnlyLive(old(pages), a)
      ensures r.Released? <==> OnlyLive(old(pages), a) && old(RecordReachable(a))
      ensures r == Panicked ==> exists root: nat :: WholeRoot(pool.leaked + pool.pending, root)
      ensures r != Panicked ==> Valid() && KeepsData(pages, old(mem), mem) && BlockWiped(old(pages), mem, a)
      ensures r != Panicked ==> exists n :: Gains(pages, old(pages), a, n)
      ensures r == Kept ==> forall x :: Holds(pages, x) <==> Holds(old(pages), x)
      ensures r.Released? ==> r.page == PageAddr(a) && Holds(old(pages), r.page)
      ensures r.Released? ==> forall x :: Holds(pages, x) <==> Holds(old(pages), x) && x != r.page
    {
      PageOfBlock(pages, pr, b, a);
      LastBlock(pages, pr, b, a);
      r := FreeBlock(pr, prpage, blktype, offset, b);
      WipedIs(old(pages), mem, pr, b, a);
      if r == Kept {
        FreeGains(old(pages), pr, b, a, old(mem), mem);
      } else if r.Released? {
        ReleaseGains(old(pages), pr, b, a, old(mem), mem);
      }
    }

    /** subpage_kfree.  A page goes to free_kpages exactly when its last block is freed; a block handed
        out is refused exactly when it is the last and a root before its record has no page, and then
        all 256 records of some root are leaked or pending. */
    method SubpageFree(ptraddr: nat) returns (r: FreeOutcome)
      requires Valid() && MayFree(ptraddr)
      modifies this, pool
      ensures pool.leaked == old(pool.leaked) && pool.pending == old(pool.pending)
      ensures !r.Panicked? ==> Valid() && KeepsData(pages, old(mem), mem)
      ensures r == NotOurs <==> forall p :: p in old(pages) ==> !OnPage(old(pages)[p], ptraddr)
      ensures r == NotOurs ==> pages == old(pages) && mem == old(mem)
      ensures r == Kept <==> (exists n :: Live(old(pages), ptraddr, n)) && !OnlyLive(old(pages), ptraddr)
      ensures r.Released? <==>
                (exists n :: Live(old(pages), ptraddr, n)) && OnlyLive(old(pages), ptraddr) && old(RecordReachable(ptraddr))
      ensures r.Panicked? && (exists n :: Live(old(pages), ptraddr, n)) ==>
                exists root: nat :: WholeRoot(pool.leaked + pool.pending, root)
      ensures r == Kept || r.Released? ==> exists n :: Gains(pages, old(pages), ptraddr, n)
      ensures r == Kept || r.Released? ==> BlockWiped(old(pages), mem, ptraddr)
      ensures r == Kept ==> forall x :: Holds(pages, x) <==> Holds(old(pages), x)
      ensures r.Released? ==> r.page == PageAddr(ptraddr) && Holds(old(pages), r.page)
      ensures r.Released? ==> forall x :: Holds(pages, x) <==> Holds(old(pages), x) && x != r.page
    {
      var found := FindPage(ptraddr);
      IsSound(pages, mem, freeOff, nfree);
      if found.None? {
        OffPages(pages, ptraddr);
        return NotOurs;
      }
      var pr := found.value;
      PageAt(pages, pab, pr);
      var prpage, blktype := PageAddr(pab[pr]), TypeOf(pab[pr]);
      var offset := ptraddr - prpage;
      if offset % SizeOf(blktype) != 0 {
        NotLive(pages, pr, ptraddr);
        return Panicked;
      }
      ghost var b :| IsBlock(pages, pr, b, ptraddr);
      assert Live(pages, ptraddr, pages[pr].used[b]);
      r := FreeFound(pr, prpage, blktype, offset, b, ptraddr);
    }

    /** kmalloc with nothing else running in between; `answer` is what alloc_kpages answers if asked for
        `asked` pages, and `va` if asked for a page for records. */
    method Kmalloc(sz: nat, answer: nat, va: nat) returns (ret: nat, asked: nat)
      requires Valid() && sz < ADDRESSES && (answer == 0 || Spare(answer))
      modifies this, pool
      ensures Valid() && pool.pending == old(pool.pending)
      ensures sz >= LARGEST_SUBPAGE_SIZE ==> ret == answer && asked == PagesFor(sz) && pages == old(pages)
      ensures sz < LARGEST_SUBPAGE_SIZE ==> asked == if Room(old(pages), sz) then 0 else 1
      ensures sz < LARGEST_SUBPAGE_SIZE && ret != 0 ==> Gains(old(pages), pages, ret, sz)
      ensures KeepsData(old(pages), old(mem), mem)
      ensures ret == 0 ==> pages == old(pages) && mem == old(mem)
      ensures ret == 0 ==>
                answer == 0 || (va == 0 && old(pool.leaked) < pool.leaked) || forall q :: 0 <= q < TOTAL ==> q in old(pool.taken)
    {
      if sz >= LARGEST_SUBPAGE_SIZE {
        return answer, (sz + PAGE_SIZE - 1) % ADDRESSES / PAGE_SIZE;
      }
      ret := TryAlloc(sz);
      if ret != 0 {
        return ret, 0;
      }
      if answer == 0 {
        return 0, 1;
      }
      var pr := ReserveRecord();
      if pr.None? {
        return 0, 1;
      }
      var back;
      ret, back := AllocOnPage(sz, answer, pr.value, va);
      return ret, 1;
    }

    /** kfree: NULL is ignored, and what is on no heap page is taken for a whole-page allocation. */
    method Kfree(ptr: nat) returns (r: FreeOutcome, bigFree: bool)
      requires Valid() && MayFree(ptr)
      modifies this, pool
      ensures pool.leaked == old(pool.leaked) && pool.pending == old(pool.pending)
      ensures !r.Panicked? ==> Valid() && KeepsData(pages, old(mem), mem)
      ensures ptr == 0 || bigFree ==> pages == old(pages) && mem == old(mem)
      ensures bigFree <==> ptr != 0 && ptr % PAGE_SIZE == 0 && forall p :: p in old(pages) ==> !OnPage(old(pages)[p], ptr)
      ensures r == Kept <==> (exists n :: Live(old(pages), ptr, n)) && !OnlyLive(old(pages), ptr)
      ensures r.Released? <==>
                (exists n :: Live(old(pages), ptr, n)) && OnlyLive(old(pages), ptr) && old(RecordReachable(ptr))
      ensures r.Panicked? && (exists n :: Live(old(pages), ptr, n)) ==>
                exists root: nat :: WholeRoot(pool.leaked + pool.pending, root)
      ensures r == Kept || r.Released? ==> exists n :: Gains(pages, old(pages), ptr, n)
      ensures r == Kept || r.Released? ==> BlockWiped(old(pages), mem, ptr)
      ensures r == Kept ==> forall x :: Holds(pages, x) <==> Holds(old(pages), x)
      ensures r.Released? ==> r.page == PageAddr(ptr) && Holds(old(pages), r.page)
      ensures r.Released? ==> forall x :: Holds(pages, x) <==> Holds(old(pages), x) && x != r.page
    {
      r, bigFree := NotOurs, false;
      IsSound(pages, mem, freeOff, nfree);
      if ptr == 0 {
        NullNotLive(pages);
        return;
      }
      ghost var was := pages;
      r := SubpageFree(ptr);
      if r == NotOurs {
        OffPages(was, ptr);
        if ptr % PAGE_SIZE != 0 {
          return Panicked, false;
        }
        bigFree := true;
      }
    }

    /** A client writes inside its own block: the heap does not notice. */
    method ClientStore(addr: nat, v: nat, ghost a: nat, ghost n: nat)
      requires Valid() && Live(pages, a, n) && a <= addr < a + n
      modifies `mem
      ensures Valid() && mem == old(mem)[addr := v]
    {
      ghost var p, b :| IsBlock(pages, p, b, a) && pages[p].used[b] == n;
      StoreKeeps(mem, freeOff, nfree, pages, p, b, addr, v);
      mem := mem[addr := v];
    }

    /** In every state of the heap the blocks clients hold are disjoint, and one address is one block. */
    lemma NoOverlap(a: nat, n: nat, a': nat, n': nat)
      requires Valid() && Live(pages, a, n) && Live(pages, a', n')
      ensures a != a' ==> a + n <= a' || a' + n' <= a
      ensures a == a' ==> n == n'
    {
      IsSound(pages, mem, freeOff, nfree);
      LiveApart(pages, a, n, a', n');
    }

    /** They are aligned and on pages the heap holds. */
    lemma BlockPlaced(a: nat, n: nat)
      requires Valid() && Live(pages, a, n)
      ensures 0 < a && a % 16 == 0 && Holds(pages, PageAddr(a))
    {
      IsSound(pages, mem, freeOff, nfree);
      var p, b :| IsBlock(pages, p, b, a) && pages[p].used[b] == n;
      PageOfBlock(pages, p, b, a);
    }

    /** Every page the heap holds has a block in use: none is kept for nothing. */
    lemma NoIdlePage(x: nat)
      requires Valid() && Holds(pages, x)
      ensures exists a: nat, n: nat :: Live(pages, a, n) && x <= a < x + PAGE_SIZE
    {
      IsSound(pages, mem, freeOff, nfree);
      assert InView(Demand, true);
      var p :| p in pages && pages[p].addr == x;
      var b :| b in pages[p].used;
      BlockOnPage(pages[p].kind, b);
      var a := x + At(pages[p].kind, b);
      assert IsBlock(pages, p, b, a);
      assert Live(pages, a, pages[p].used[b]);
    }
  }
}
