/** The pool of page records of the kernel heap (allocpageref, allocpagerefpage and freepageref in
kmalloc.c).

Record p is entry p % 256 of the p / 256-th pageref page; its bit is bit p % 32 of word p / 32
of the bitmaps.  allocpageref gives up the heap lock while it gets a page for records, so it is two
critical sections here, `Reserve` and `Settle`, and other calls may come in between. */
module PageRefPool {
  import opened Common
  import opened Bits

  const NUM_ROOTS: nat := 16
  const REFS_PER_PAGE: nat := 256
  const INUSE_WORDS: nat := 8
  const TOTAL: nat := 4096
  const FULL: nat := 0xffff_ffff

  /** The parts of the heap's invariant.  Each is stated as `forall u :: InView(part, u) ==> ...`.  That
      is the plain statement, since InView always holds; but the prover looks inside a part only
      where a proof mentions InView of it, and elsewhere carries it along as a whole. */
  datatype Part = Bitmap | Roots | OnePage | Frames | Words | Contents | Demand | AllPages | SizeLists

  ghost predicate InView(part: Part, u: bool) {
    true
  }

  lemma WordSize()
    ensures Pow2(32) == FULL + 1
  {
    assert Pow2(8) == 256;
    Pow2Add(8, 8);
    Pow2Add(16, 16);
  }

  /** The records of one root that are in s. */
  ghost function OfRoot(s: set<nat>, r: nat): set<nat> {
    set p | p in s && p / REFS_PER_PAGE == r
  }

  ghost predicate From(lo: nat, p: nat) {
    lo <= p
  }

  ghost function Interval(lo: nat, n: nat): set<nat> {
    set p: nat | p < lo + n && From(lo, p)
  }

  lemma {:induction false} IntervalSize(lo: nat, n: nat)
    ensures |Interval(lo, n)| == n
  {
    if n != 0 {
      IntervalSize(lo, n - 1);
      assert Interval(lo, n) == Interval(lo, n - 1) + {lo + n - 1};
    }
  }

  lemma {:induction false} SubsetSize(s: set<nat>, t: set<nat>)
    requires s <= t
    ensures |s| <= |t| && (|s| == |t| ==> s == t)
  {
    if s != {} {
      var x :| x in s;
      SubsetSize(s - {x}, t - {x});
    } else if |t| == 0 {
      assert t == {};
    }
  }

  /** A root whose count has reached the page's capacity has every record taken. */
  lemma RootFull(s: set<nat>, r: nat)
    ensures |OfRoot(s, r)| <= REFS_PER_PAGE
    ensures |OfRoot(s, r)| == REFS_PER_PAGE ==> forall p :: r * REFS_PER_PAGE <= p < (r + 1) * REFS_PER_PAGE ==> p in s
  {
    var all := Interval(r * REFS_PER_PAGE, REFS_PER_PAGE);
    IntervalSize(r * REFS_PER_PAGE, REFS_PER_PAGE);
    SubsetSize(OfRoot(s, r), all);
    if |OfRoot(s, r)| == REFS_PER_PAGE {
      forall p | r * REFS_PER_PAGE <= p < (r + 1) * REFS_PER_PAGE ensures p in s {
        assert p in all;
      }
    }
  }

  /** Setting bit j: w | (1 << j). */
  lemma SetBit(w: nat, j: nat)
    requires w <= FULL && j < 32
    ensures Or(w, Pow2(j)) <= FULL
    ensures forall i: nat :: i < 32 ==> (Bit(Or(w, Pow2(j)), i) <==> Bit(w, i) || i == j)
  {
    WordSize();
    Pow2Below(j, 32);
    OrBound(w, Pow2(j), 32);
    forall i: nat | i < 32 ensures Bit(Or(w, Pow2(j)), i) <==> Bit(w, i) || i == j {
      BitOfOr(w, Pow2(j), i);
      BitOfPow2(j, i);
    }
  }

  lemma {:induction false} Pow2Below(j: nat, n: nat)
    requires j < n
    ensures Pow2(j) < Pow2(n)
  {
    if j + 1 < n {
      Pow2Below(j, n - 1);
    }
  }

  /** Clearing bit j: w & ~(1 << j). */
  lemma ClearBit(w: nat, j: nat)
    requires w <= FULL && j < 32
    ensures Pow2(j) <= FULL && And(w, FULL - Pow2(j)) <= FULL
    ensures forall i: nat :: i < 32 ==> (Bit(And(w, FULL - Pow2(j)), i) <==> Bit(w, i) && i != j)
  {
    WordSize();
    Pow2Below(j, 32);
    AndBound(w, FULL - Pow2(j));
    forall i: nat | i < 32 ensures Bit(And(w, FULL - Pow2(j)), i) <==> Bit(w, i) && i != j {
      BitOfAnd(w, FULL - Pow2(j), i);
      BitOfComplement(Pow2(j), 32, i);
      BitOfPow2(j, i);
    }
  }

  /** A word that is not all ones has a clear bit. */
  lemma HasClearBit(w: nat) returns (j: nat)
    requires w < FULL
    ensures j < 32 && !Bit(w, j)
  {
    WordSize();
    if forall i: nat :: i < 32 ==> Bit(w, i) {
      forall i: nat | i < 32 ensures Bit(w, i) <==> Bit(FULL, i) {
        BitOfComplement(0, 32, i);
        BitOfZero(i);
      }
      SameBits(w, FULL, 32);
    }
    j :| j < 32 && !Bit(w, j);
  }

  predicate InUse(words: seq<nat>, p: nat)
    requires |words| == NUM_ROOTS * INUSE_WORDS && p < TOTAL
  {
    Bit(words[p / 32], p % 32)
  }

  /** All records of root r are in s. */
  ghost predicate WholeRoot(s: set<nat>, r: nat) {
    forall q: nat :: r * REFS_PER_PAGE <= q < (r + 1) * REFS_PER_PAGE ==> q in s
  }

  class Pool {
    var inuse: seq<nat>     // pagerefs_inuse of all roots, one after the other
    var numinuse: seq<nat>
    var pages: seq<nat>     // root->page; 0 is NULL
    ghost var taken: set<nat>
    ghost var leaked: set<nat>
    ghost var pending: set<nat>

    /** Set bits are exactly the taken records, counted per root. */
    ghost predicate BitsOk()
      reads this
    {
      forall u {:trigger InView(Bitmap, u)} :: InView(Bitmap, u) ==>
        && |inuse| == NUM_ROOTS * INUSE_WORDS && |numinuse| == NUM_ROOTS
        && (forall i :: 0 <= i < |inuse| ==> inuse[i] <= FULL)
        && (forall p :: p in taken ==> p < TOTAL)
        && (forall p: nat :: p < TOTAL ==> (InUse(inuse, p) <==> p in taken))
        && (forall r :: 0 <= r < NUM_ROOTS ==> numinuse[r] == |OfRoot(taken, r)|)
    }

    /** A record is pending while its call is away getting a page for records, and leaked when there was
        none to get.  All others are on a page; and a root without a page that was passed over has
        none but pending and leaked records. */
    ghost predicate RootsOk()
      reads this
    {
      forall u {:trigger InView(Roots, u)} :: InView(Roots, u) ==>
        && |pages| == NUM_ROOTS
        && (forall p :: p in taken ==> p < TOTAL && (p in leaked || p in pending || pages[p / REFS_PER_PAGE] != 0))
        && (forall p, r :: p in taken && 0 <= r < p / REFS_PER_PAGE && r < NUM_ROOTS && pages[r] == 0 ==>
              WholeRoot(leaked + pending, r))
    }

    ghost predicate Valid()
      reads this
    {
      leaked <= taken && pending <= taken && leaked !! pending && BitsOk() && RootsOk()
    }

    constructor ()
      ensures Valid() && taken == {} && leaked == {} && pending == {} && pages == seq(NUM_ROOTS, _ => 0)
    {
      inuse := seq(NUM_ROOTS * INUSE_WORDS, _ => 0);
      numinuse := seq(NUM_ROOTS, _ => 0);
      pages := seq(NUM_ROOTS, _ => 0);
      taken, leaked, pending := {}, {}, {};
      new;
      forall p: nat | p < TOTAL ensures !InUse(inuse, p) {
        BitOfZero(p % 32);
      }
      forall r | 0 <= r < NUM_ROOTS ensures |OfRoot(taken, r)| == 0 {
        assert OfRoot(taken, r) == {};
      }
    }

    /** allocpageref up to the point where a page for records may be missing: the first record that is
        not taken, its bit now set; None exactly when all are taken. */
    method Reserve() returns (r: Option<nat>)
      requires Valid()
      modifies this
      ensures Valid() && pages == old(pages) && leaked == old(leaked)
      ensures r.Some? ==>
                && r.value < TOTAL && r.value !in old(taken) && (forall q :: 0 <= q < r.value ==> q in old(taken))
                && taken == old(taken) + {r.value} && pending == old(pending) + {r.value}
      ensures r.None? ==> taken == old(taken) && pending == old(pending) && forall q :: 0 <= q < TOTAL ==> q in taken
    {
      var p := FirstFree();
      if p == TOTAL {
        return None;
      }
      Mark(p);
      FrontKept(p);
      pending := pending + {p};
      r := Some(p);
    }

    /** The search; TOTAL if there is none. */
    method FirstFree() returns (p: nat)
      requires BitsOk()
      ensures p <= TOTAL && (forall q :: 0 <= q < p ==> q in taken) && (p < TOTAL ==> p !in taken)
    {
      assert InView(Bitmap, true);
      var whichroot := 0;
      while whichroot < NUM_ROOTS
        invariant 0 <= whichroot <= NUM_ROOTS
        invariant forall q :: 0 <= q < whichroot * REFS_PER_PAGE ==> q in taken
      {
        if numinuse[whichroot] >= REFS_PER_PAGE {
          RootFull(taken, whichroot);
        } else {
          var i := 0;
          while i < INUSE_WORDS
            invariant 0 <= i <= INUSE_WORDS
            invariant forall q :: 0 <= q < whichroot * REFS_PER_PAGE + 32 * i ==> q in taken
          {
            var word := whichroot * INUSE_WORDS + i;
            if inuse[word] != FULL {
              var j := FirstClear(word);
              return 32 * word + j;
            }
            AllSet(word);
            i := i + 1;
          }
        }
        whichroot := whichroot + 1;
      }
      p := TOTAL;
    }

    lemma AllSet(word: nat)
      requires BitsOk() && word < |inuse| && inuse[word] == FULL
      ensures forall q :: 32 * word <= q < 32 * word + 32 ==> q in taken
    {
      assert InView(Bitmap, true);
      forall q | 32 * word <= q < 32 * word + 32 ensures q in taken {
        WordSize();
        BitOfComplement(0, 32, q % 32);
        BitOfZero(q % 32);
        assert InUse(inuse, q);
      }
    }

    /** What the scan tests is whether record j of the word is taken. */
    lemma BitAt(word: nat, j: nat)
      requires BitsOk() && word < |inuse| && j < 32
      ensures And(inuse[word], Pow2(j)) == 0 <==> 32 * word + j !in taken
    {
      assert InView(Bitmap, true);
      AndOneBit(inuse[word], j);
      assert (32 * word + j) / 32 == word && (32 * word + j) % 32 == j;
      assert InUse(inuse, 32 * word + j) <==> Bit(inuse[word], j);
    }

    lemma ClearIn(word: nat) returns (c: nat)
      requires BitsOk() && word < |inuse| && inuse[word] != FULL
      ensures c < 32 && 32 * word + c !in taken
    {
      assert InView(Bitmap, true);
      c := HasClearBit(inuse[word]);
      assert (32 * word + c) / 32 == word && (32 * word + c) % 32 == c;
      assert !InUse(inuse, 32 * word + c);
    }

    /** The scan of one word with a moving mask; it cannot fall off the end. */
    method FirstClear(word: nat) returns (j: nat)
      requires BitsOk() && word < |inuse| && inuse[word] != FULL
      ensures j < 32 && 32 * word + j !in taken
      ensures forall q :: 32 * word <= q < 32 * word + j ==> q in taken
    {
      ghost var c := ClearIn(word);
      j := 0;
      var k := 1;
      while true
        invariant j <= c < 32 && k == Pow2(j) && 32 * word + c !in taken
        invariant forall q :: 32 * word <= q < 32 * word + j ==> q in taken
        decreases 32 - j
      {
        BitAt(word, j);
        if And(inuse[word], k) == 0 {
          return;
        }
        k := k * 2;
        j := j + 1;
      }
    }

    /** The bit is set and counted. */
    method Mark(p: nat)
      requires BitsOk() && p < TOTAL && p !in taken
      modifies `inuse, `numinuse, `taken
      ensures BitsOk() && taken == old(taken) + {p}
    {
      assert InView(Bitmap, true);
      var root, word := p / REFS_PER_PAGE, p / 32;
      SetBit(inuse[word], p % 32);
      ghost var w0 := inuse;
      inuse := inuse[word := Or(inuse[word], Pow2(p % 32))];
      forall q: nat | q < TOTAL ensures InUse(inuse, q) <==> InUse(w0, q) || q == p {
        if q / 32 == word {
          assert Bit(inuse[word], q % 32) <==> Bit(w0[word], q % 32) || q % 32 == p % 32;
        }
      }
      CountAdd(taken, p);
      numinuse := numinuse[root := numinuse[root] + 1];
      taken := taken + {p};
    }

    /** A root without a page before the first free record has only pending and leaked records. */
    twostate lemma FrontKept(p: nat)
      requires old(RootsOk()) && p < TOTAL && taken == old(taken) + {p} && unchanged(`pages, `leaked, `pending)
      requires forall q :: 0 <= q < p ==> q in old(taken)
      ensures |pages| == NUM_ROOTS
      ensures forall q :: q in taken ==>
                q < TOTAL && (q in leaked || q in pending + {p} || pages[q / REFS_PER_PAGE] != 0)
      ensures forall q, r :: q in taken && 0 <= r < q / REFS_PER_PAGE && r < NUM_ROOTS && pages[r] == 0 ==>
                WholeRoot(leaked + (pending + {p}), r)
    {
      assert InView(Roots, true);
      forall q, r | q in taken && 0 <= r < q / REFS_PER_PAGE && r < NUM_ROOTS && pages[r] == 0
        ensures WholeRoot(leaked + (pending + {p}), r) {
        if q !in old(taken) {
          forall k: nat | r * REFS_PER_PAGE <= k < (r + 1) * REFS_PER_PAGE ensures k in leaked + pending {
            assert k in old(taken) && k / REFS_PER_PAGE == r;
          }
        }
        assert WholeRoot(leaked + pending, r) && leaked + (pending + {p}) == (leaked + pending) + {p};
      }
    }

    /** allocpageref after allocpagerefpage has the lock again: `va` is the page it got, 0 for none.  The
        page is used if the root still has none, and goes back otherwise. */
    method Settle(p: nat, va: nat) returns (r: Option<nat>, back: nat)
      requires Valid() && p in pending
      modifies `pages, `leaked, `pending
      ensures Valid() && pending == old(pending) - {p} && |pages| == NUM_ROOTS && p < TOTAL
      ensures old(|pages|) == NUM_ROOTS
      ensures var root := p / REFS_PER_PAGE;
              && pages == (if old(pages)[root] == 0 then old(pages)[root := va] else old(pages))
              && back == (if old(pages)[root] == 0 then 0 else va)
              && r == (if pages[root] == 0 then None else Some(p))
      ensures leaked == if r.Some? then old(leaked) else old(leaked) + {p}
    {
      assert InView(Roots, true);
      var root := p / REFS_PER_PAGE;
      back := 0;
      if pages[root] == 0 {
        pages := pages[root := va];
      } else {
        back := va;
      }
      pending := pending - {p};
      if pages[root] == 0 {
        leaked := leaked + {p};
        r := None;
      } else {
        r := Some(p);
      }
      forall q, k | q in taken && 0 <= k < q / REFS_PER_PAGE && k < NUM_ROOTS && pages[k] == 0
        ensures WholeRoot(leaked + pending, k) {
        assert WholeRoot(old(leaked) + old(pending), k);
      }
    }

    /** freepageref.  The scan of earlier roots asserts that a root without a page has no records in
        use; the assertion fails exactly when some earlier root has no page, and then all 256 records of
        that root are leaked or pending. */
    method Free(p: nat) returns (ok: bool)
      requires Valid() && p in taken && p !in leaked && p !in pending
      modifies `inuse, `numinuse, `taken
      ensures Valid() && taken == if ok then old(taken) - {p} else old(taken)
      ensures |pages| == NUM_ROOTS && (ok <==> Reachable(p))
      ensures !ok ==> exists r :: 0 <= r < p / REFS_PER_PAGE && WholeRoot(leaked + pending, r)
    {
      assert InView(Bitmap, true) && InView(Roots, true);
      var whichroot := 0;
      while whichroot < NUM_ROOTS
        invariant 0 <= whichroot <= p / REFS_PER_PAGE && unchanged(`inuse, `numinuse, `taken)
        invariant forall r :: 0 <= r < whichroot ==> pages[r] != 0
      {
        if pages[whichroot] == 0 {
          assert WholeRoot(leaked + pending, whichroot);
          NotEmpty(whichroot);
          if numinuse[whichroot] != 0 {
            return false;
          }
        } else if whichroot == p / REFS_PER_PAGE {
          Release(p);
          return true;
        }
        whichroot := whichroot + 1;
      }
      ok := true;
    }

    /** Every root before that of p has a page. */
    ghost predicate Reachable(p: nat)
      reads this
    {
      forall r :: 0 <= r < |pages| && r < p / REFS_PER_PAGE ==> pages[r] != 0
    }

    lemma NotEmpty(r: nat)
      requires Valid() && r < NUM_ROOTS && WholeRoot(leaked + pending, r)
      ensures |OfRoot(taken, r)| > 0
    {
      assert r * REFS_PER_PAGE in OfRoot(taken, r);
    }

    method Release(p: nat)
      requires Valid() && p in taken && p !in leaked && p !in pending
      modifies `inuse, `numinuse, `taken
      ensures Valid() && taken == old(taken) - {p}
    {
      assert InView(Bitmap, true) && InView(Roots, true);
      var root, word := p / REFS_PER_PAGE, p / 32;
      AndOneBit(inuse[word], p % 32);
      assert InUse(inuse, p);
      assert And(inuse[word], Pow2(p % 32)) != 0;
      ClearBit(inuse[word], p % 32);
      ghost var w0 := inuse;
      inuse := inuse[word := And(inuse[word], FULL - Pow2(p % 32))];
      forall q: nat | q < TOTAL ensures InUse(inuse, q) <==> InUse(w0, q) && q != p {
        if q / 32 == word {
          assert Bit(inuse[word], q % 32) <==> Bit(w0[word], q % 32) && q % 32 != p % 32;
        }
      }
      CountAdd(taken - {p}, p);
      assert taken == (taken - {p}) + {p};
      assert numinuse[root] > 0;
      numinuse := numinuse[root := numinuse[root] - 1];
      taken := taken - {p};
    }
  }

  /** The failure of that assertion: 256 records for which no page was to be had, one on the next root
      for which there was, and then that one freed. */
  method LeakThenFree(page: nat) returns (ok: bool)
    requires page != 0
    ensures !ok
  {
    var pool := new Pool();
    var i := 0;
    while i < REFS_PER_PAGE
      invariant 0 <= i <= REFS_PER_PAGE && fresh(pool) && pool.Valid() && Leaked(pool, i)
    {
      var p := ReserveNext(pool, i);
      var r, back := pool.Settle(p, 0);
      i := i + 1;
    }
    var p := ReserveNext(pool, REFS_PER_PAGE);
    var r, back := pool.Settle(p, page);
    ok := pool.Free(p);
    assert pool.pages[0] == 0;
  }

  /** The first n records are leaked, and that is all. */
  ghost predicate Leaked(pool: Pool, n: nat)
    reads pool
  {
    pool.pages == seq(NUM_ROOTS, _ => 0) && pool.taken == pool.leaked == Interval(0, n) && pool.pending == {}
  }

  method ReserveNext(pool: Pool, ghost n: nat) returns (p: nat)
    requires pool.Valid() && Leaked(pool, n) && n < TOTAL
    modifies pool
    ensures pool.Valid() && p == n && pool.pages == old(pool.pages)
    ensures pool.leaked == Interval(0, n) && pool.taken == Interval(0, n + 1) && pool.pending == {n}
  {
    assert n !in pool.taken;
    var r := pool.Reserve();
    p := r.value;
  }

  lemma CountAdd(s: set<nat>, p: nat)
    requires p !in s
    ensures forall r: nat :: |OfRoot(s + {p}, r)| == |OfRoot(s, r)| + (if p / REFS_PER_PAGE == r then 1 else 0)
  {
    forall r: nat ensures |OfRoot(s + {p}, r)| == |OfRoot(s, r)| + (if p / REFS_PER_PAGE == r then 1 else 0) {
      if p / REFS_PER_PAGE == r {
        assert OfRoot(s + {p}, r) == OfRoot(s, r) + {p};
      } else {
        assert OfRoot(s + {p}, r) == OfRoot(s, r);
      }
    }
  }
}
