/** Blocks of files: the bitmap allocator, direct and indirect block maps and truncation
    (fs/fs.c). */
module FileBlocks {
  import opened Mmu
  import opened Bitmaps
  import opened FileTree

  // ---------- the allocator ----------

  predicate BlockIsFree(s: Disk, b: nat)
    requires Sized(s)
  {
    b < |s.data| && Has(s.bitmap, b)
  }

  function FreeBlock(s: Disk, b: nat): Disk
    requires Sized(s)
  {
    if b == 0 || b >= |s.data| then s else s.(bitmap := SetBit(s.bitmap, b))
  }

  /** The first free block from n on, or one past the last block. */
  function FirstFree(s: Disk, n: nat): (b: nat)
    requires Sized(s) && n <= |s.data|
    ensures n <= b <= |s.data| && (b < |s.data| ==> BlockIsFree(s, b))
    ensures forall k: nat | n <= k < b :: !BlockIsFree(s, k)
    decreases |s.data| - n, s
  {
    if n == |s.data| || BlockIsFree(s, n) then n else FirstFree(s, n + 1)
  }

  /** alloc_block_num: the block taken, or an error. */
  function AllocBlockNum(s: Disk): (r: (Disk, int))
    requires Sized(s)
  {
    if |s.data| <= 3 || FirstFree(s, 3) == |s.data| then (s, -E_NO_DISK)
    else (s.(bitmap := ClearBit(s.bitmap, FirstFree(s, 3))), FirstFree(s, 3))
  }

  /** map_block: a page of zeros for a block that is not in the cache. */
  function MapBlock(s: Disk, b: nat): (r: (Disk, int))
    requires b < |s.data|
  {
    if b in s.cached then (s, 0)
    else if s.pages == 0 then (s, -E_NO_MEM)
    else (s.(cached := s.cached + {b}, data := s.data[b := ZeroWords()], pages := s.pages - 1), 0)
  }

  function AllocBlock(s: Disk): (r: (Disk, int))
    requires Sized(s)
  {
    var (s1, b) := AllocBlockNum(s);
    if b < 0 then (s1, b)
    else
      var (s2, r) := MapBlock(s1, b);
      if r < 0 then (FreeBlock(s2, b), r) else (s2, b)
  }

  // ---------- block maps ----------

  /** Word w of block b becomes v. */
  function Put(s: Disk, b: nat, w: nat, v: nat): Disk
    requires b < |s.data| && w < NINDIRECT
  {
    s.(data := s.data[b := s.data[b][w := v]])
  }

  function SetField(s: Disk, f: Home, i: nat, v: nat): Disk
    requires IsPtr(s, f) && i < FILE_WORDS
  {
    Put(s, f.b, f.w + i, v)
  }

  /** *ptr = v, where ptr is what file_block_walk found for block n of file f. */
  function Store(s: Disk, f: Home, n: nat, v: nat): Disk
    requires IsPtr(s, f) && n < NINDIRECT
  {
    if n < NDIRECT then SetField(s, f, DIRECT_WORD + n, v)
    else if 0 < At(s, Indirect(f)) < |s.data| then Put(s, At(s, Indirect(f)), n, v)
    else s
  }

  function ReadBlock(s: Disk, b: nat): Disk { s.(cached := s.cached + {b}) }

  /** file_block_walk; on 0 the block's number is at Slot(f, n). */
  function FileBlockWalk(s: Disk, f: Home, n: nat, alloc: bool): (r: (Disk, int))
    requires Sized(s) && IsPtr(s, f)
  {
    if n < NDIRECT then (s, 0)
    else if n >= NINDIRECT then (s, -E_INVAL)
    else if At(s, Indirect(f)) != 0 then (ReadBlock(s, At(s, Indirect(f))), 0)
    else if !alloc then (s, -E_NOT_FOUND)
    else
      var (s1, b) := AllocBlock(s);
      if b < 0 then (s1, b) else (ReadBlock(SetField(s1, f, INDIRECT_WORD, b), b), 0)
  }

  /** A new block for the empty slot n of file f. */
  function FillSlot(s: Disk, f: Home, n: nat): (r: (Disk, int))
    requires Sized(s) && IsPtr(s, f) && n < NINDIRECT
  {
    var (s1, b) := AllocBlock(s);
    if b < 0 then (s1, b) else (Store(s1, f, n, b), b)
  }

  /** file_map_block: the number of the disk block, or an error. */
  function FileMapBlock(s: Disk, f: Home, n: nat, alloc: bool): (r: (Disk, int))
    requires Sized(s) && IsPtr(s, f)
  {
    var (s1, r) := FileBlockWalk(s, f, n, alloc);
    if r < 0 then (s1, r)
    else if At(s1, Slot(f, n)) != 0 then (s1, At(s1, Slot(f, n)))
    else if !alloc then (s1, -E_NOT_FOUND)
    else FillSlot(s1, f, n)
  }

  function FileClearBlock(s: Disk, f: Home, n: nat): Disk
    requires Sized(s) && IsPtr(s, f)
  {
    var (s1, r) := FileBlockWalk(s, f, n, false);
    if r < 0 || At(s1, Slot(f, n)) == 0 then s1
    else Store(FreeBlock(s1, At(s1, Slot(f, n))), f, n, 0)
  }

  // ---------- who owns which block ----------

  /** The blocks before this one hold the boot sector, the superblock and the bitmap. */
  function Meta(s: Disk): nat { |s.data| / BIT2BLK + 3 }

  predicate InUse(s: Disk, b: nat)
    requires Sized(s)
  {
    Meta(s) <= b < |s.data| && !BlockIsFree(s, b)
  }

  ghost predicate IsRef(s: Disk, r: Ref) {
    IsHome(s, r.f) && (r.Slot? ==> r.n < NINDIRECT)
  }

  /** Block b belongs to the file, in use or not, that holds its number at r. */
  ghost predicate Owner(s: Disk, r: Ref, b: nat) {
    IsRef(s, r) && b != 0 && At(s, r) == b
  }

  ghost predicate MetaInUse(s: Disk)
    requires Sized(s)
  {
    forall b: nat | b < Meta(s) :: !BlockIsFree(s, b)
  }

  ghost predicate OwnedInUse(s: Disk)
    requires Sized(s)
  {
    forall r, b: nat | Owner(s, r, b) :: InUse(s, b)
  }

  ghost predicate OwnedOnce(s: Disk) {
    forall r, q, b: nat | Owner(s, r, b) && Owner(s, q, b) :: r == q
  }

  /** Blocks of files are in use and belong to one place of one file; none is a metadata block. */
  ghost predicate FsOk(s: Disk) {
    Sized(s) && MetaInUse(s) && OwnedInUse(s) && OwnedOnce(s)
  }

  ghost predicate Owned(s: Disk, b: nat) {
    exists r :: Owner(s, r, b)
  }

  /** Every block in use belongs to a file. */
  ghost predicate NoLeaks(s: Disk)
    requires Sized(s)
  {
    forall b: nat | InUse(s, b) :: Owned(s, b)
  }

  /** The same number of blocks. */
  predicate SameShape(s: Disk, s': Disk) {
    |s'.data| == |s.data| && |s'.bitmap| == |s.bitmap|
  }

  // ---------- what order there is on the disk ----------

  lemma Multiple(k: nat)
    requires k < FILE2BLK
    ensures FILE_WORDS * k % FILE_WORDS == 0 && FILE_WORDS * k + FILE_WORDS <= NINDIRECT
  {
  }

  /** A struct File other than the root's lies in a block that a directory owns. */
  lemma HomePlace(s: Disk, h: Home)
    requires FsOk(s) && IsHome(s, h)
    ensures IsPtr(s, h)
    ensures h != ROOT ==> InUse(s, h.b) && h.w % FILE_WORDS == 0
    ensures h == ROOT || h.b != ROOT.b
  {
    if h != ROOT {
      var d, n, k := Parent(s, h);
      Multiple(k);
      assert Owner(s, Slot(d, n), h.b);
    }
  }

  lemma HomeInUse(s: Disk, h: Home)
    requires FsOk(s) && IsHome(s, h)
    ensures IsPtr(s, h) && !BlockIsFree(s, h.b)
  {
    HomePlace(s, h);
    if h == ROOT {
      assert h.b < Meta(s);
    }
  }

  lemma Multiples(a: nat, b: nat)
    requires a % FILE_WORDS == 0 && b % FILE_WORDS == 0 && a < b
    ensures a + FILE_WORDS <= b
  {
  }

  /** Two struct Files do not overlap. */
  lemma HomesApart(s: Disk, h: Home, g: Home)
    requires FsOk(s) && IsHome(s, h) && IsHome(s, g) && h != g
    ensures h.b != g.b || h.w + FILE_WORDS <= g.w || g.w + FILE_WORDS <= h.w
  {
    HomePlace(s, h);
    HomePlace(s, g);
    if h.b == g.b {
      if h.w < g.w {
        Multiples(h.w, g.w);
      } else {
        Multiples(g.w, h.w);
      }
    }
  }

  /** A block of struct Files is no indirect block. */
  lemma IndirectNoHome(s: Disk, g: Home, h: Home)
    requires FsOk(s) && IsHome(s, g) && IsHome(s, h)
    ensures At(s, Indirect(g)) != h.b
  {
    if At(s, Indirect(g)) == h.b {
      HomePlace(s, h);
      if h.b != 0 {
        assert Owner(s, Indirect(g), h.b);
        if h != ROOT {
          var d, n, k := Parent(s, h);
          assert Owner(s, Slot(d, n), h.b);
        }
      }
    }
  }

  /** No file shares its indirect block with another. */
  lemma IndirectsApart(s: Disk, g: Home, h: Home)
    requires FsOk(s) && IsHome(s, g) && IsHome(s, h) && g != h && At(s, Indirect(g)) != 0
    ensures At(s, Indirect(g)) != At(s, Indirect(h))
  {
    assert Owner(s, Indirect(g), At(s, Indirect(g)));
    assert Owner(s, Indirect(h), At(s, Indirect(g))) || At(s, Indirect(h)) != At(s, Indirect(g));
  }

  lemma IndirectInUse(s: Disk, g: Home)
    requires FsOk(s) && IsHome(s, g) && At(s, Indirect(g)) != 0
    ensures InUse(s, At(s, Indirect(g)))
  {
    assert Owner(s, Indirect(g), At(s, Indirect(g)));
  }

  // ---------- what writes to words do ----------

  /** The words that say where the blocks of g are have not changed. */
  ghost predicate SameWords(s: Disk, s': Disk, g: Home) {
    && |s'.data| == |s.data|
    && (forall i: nat | SIZE_WORD <= i <= INDIRECT_WORD :: Field(s', g, i) == Field(s, g, i))
    && (0 < At(s, Indirect(g)) < |s.data| ==> s'.data[At(s, Indirect(g))] == s.data[At(s, Indirect(g))])
  }

  lemma SameWordsSame(s: Disk, s': Disk, g: Home)
    requires SameWords(s, s', g)
    ensures SameMap(s, s', g) && SameView(s, s', g)
  {
    assert Field(s', g, INDIRECT_WORD) == Field(s, g, INDIRECT_WORD);
    assert Field(s', g, SIZE_WORD) == Field(s, g, SIZE_WORD) && Field(s', g, TYPE_WORD) == Field(s, g, TYPE_WORD);
    forall n: nat ensures At(s', Slot(g, n)) == At(s, Slot(g, n)) {
      if n < NDIRECT {
        assert Field(s', g, DIRECT_WORD + n) == Field(s, g, DIRECT_WORD + n);
      }
    }
  }

  /** A word is written that is neither in the struct File of g nor in its indirect block. */
  lemma PutElsewhere(s: Disk, b: nat, w: nat, v: nat, g: Home)
    requires b < |s.data| && w < NINDIRECT && At(s, Indirect(g)) != b
    requires g.b != b || w < g.w + SIZE_WORD || w > g.w + INDIRECT_WORD
    ensures SameWords(s, Put(s, b, w, v), g)
  {
  }

  lemma SetFieldOthers(s: Disk, f: Home, i: nat, v: nat, g: Home)
    requires FsOk(s) && IsHome(s, f) && IsHome(s, g) && f != g && i < FILE_WORDS
    ensures IsPtr(s, f) && SameWords(s, SetField(s, f, i, v), g)
  {
    HomePlace(s, f);
    HomesApart(s, f, g);
    IndirectNoHome(s, g, f);
    PutElsewhere(s, f.b, f.w + i, v, g);
  }

  lemma StoreOthers(s: Disk, f: Home, n: nat, v: nat, g: Home)
    requires FsOk(s) && IsHome(s, f) && IsHome(s, g) && f != g && n < NINDIRECT
    ensures IsPtr(s, f) && SameWords(s, Store(s, f, n, v), g)
  {
    HomePlace(s, f);
    if n < NDIRECT {
      SetFieldOthers(s, f, DIRECT_WORD + n, v, g);
    } else if 0 < At(s, Indirect(f)) < |s.data| {
      IndirectNoHome(s, f, g);
      IndirectsApart(s, f, g);
      PutElsewhere(s, At(s, Indirect(f)), n, v, g);
    }
  }

  /** What the write does to the file itself. */
  lemma SetFieldOwn(s: Disk, f: Home, i: nat, v: nat)
    requires IsPtr(s, f) && i < FILE_WORDS && At(s, Indirect(f)) != f.b
    ensures var s' := SetField(s, f, i, v);
      && Field(s', f, i) == v && (forall j: nat | j < FILE_WORDS && j != i :: Field(s', f, j) == Field(s, f, j))
      && (forall n: nat :: InBlock(s', At(s, Indirect(f)), n) == InBlock(s, At(s, Indirect(f)), n))
  {
  }

  lemma StoreOwn(s: Disk, f: Home, n: nat, v: nat)
    requires IsPtr(s, f) && n < NINDIRECT && At(s, Indirect(f)) != f.b
    requires n < NDIRECT || 0 < At(s, Indirect(f)) < |s.data|
    ensures var s' := Store(s, f, n, v);
      && At(s', Slot(f, n)) == v && At(s', Indirect(f)) == At(s, Indirect(f))
      && (forall k: nat | k != n :: At(s', Slot(f, k)) == At(s, Slot(f, k)))
      && IsDir(s', f) == IsDir(s, f) && Size(s', f) == Size(s, f)
  {
    var s', ind := Store(s, f, n, v), At(s, Indirect(f));
    if n < NDIRECT {
      SetFieldOwn(s, f, DIRECT_WORD + n, v);
      forall k: nat | k != n ensures At(s', Slot(f, k)) == At(s, Slot(f, k)) {
        if k < NDIRECT {
          assert Field(s', f, DIRECT_WORD + k) == Field(s, f, DIRECT_WORD + k);
        }
      }
    } else {
      assert forall i: nat :: Field(s', f, i) == Field(s, f, i);
    }
  }

  /** Words of free blocks matter to no file. */
  lemma FreeWords(s: Disk, s': Disk, g: Home)
    requires FsOk(s) && IsHome(s, g) && |s'.data| == |s.data|
    requires forall b: nat | b < |s.data| && !BlockIsFree(s, b) :: s'.data[b] == s.data[b]
    ensures SameWords(s, s', g)
  {
    HomeInUse(s, g);
    if At(s, Indirect(g)) != 0 {
      IndirectInUse(s, g);
    }
  }

  lemma SameOwners(s: Disk, s': Disk)
    requires forall g | IsHome(s, g) :: SameMap(s, s', g) && SameView(s, s', g)
    ensures forall g :: IsHome(s', g) <==> IsHome(s, g)
    ensures forall r, b: nat :: Owner(s', r, b) <==> Owner(s, r, b)
  {
    SameTree(s, s');
    forall r, b: nat ensures Owner(s', r, b) <==> Owner(s, r, b) {
      if IsHome(s, r.f) {
        assert SameMap(s, s', r.f);
      }
    }
  }

  lemma SameOwnersOk(s: Disk, s': Disk)
    requires FsOk(s) && SameShape(s, s') && s'.bitmap == s.bitmap
    requires forall r, b: nat :: Owner(s', r, b) <==> Owner(s, r, b)
    ensures FsOk(s') && (NoLeaks(s') <==> NoLeaks(s))
  {
    assert forall b :: BlockIsFree(s', b) == BlockIsFree(s, b);
    assert forall b :: Owned(s', b) <==> Owned(s, b) by {
      forall b ensures Owned(s', b) <==> Owned(s, b) {
        if r :| Owner(s, r, b) {
          assert Owner(s', r, b);
        }
        if r :| Owner(s', r, b) {
          assert Owner(s, r, b);
        }
      }
    }
  }

  // ---------- giving blocks up ----------

  /** Block b was held at one of the places in refs. */
  ghost predicate HeldAt(s: Disk, refs: set<Ref>, b: nat) {
    exists r :: r in refs && Owner(s, r, b)
  }

  /** From s to s', owners have only gone, the places in `freed` have been emptied, and the
      blocks that these held have become free. */
  ghost predicate Drops(s: Disk, s': Disk, freed: set<Ref>)
    requires Sized(s)
  {
    && Sized(s') && SameShape(s, s')
    && (forall r, b: nat | Owner(s', r, b) :: Owner(s, r, b) && r !in freed)
    && (forall b: nat | b < |s.data| :: BlockIsFree(s', b) <==> BlockIsFree(s, b) || HeldAt(s, freed, b))
  }

  lemma DropsKeepsOk(s: Disk, s': Disk, freed: set<Ref>)
    requires FsOk(s) && Drops(s, s', freed)
    ensures FsOk(s')
  {
    forall r, b: nat | Owner(s', r, b) ensures InUse(s', b) {
      assert Owner(s, r, b) && InUse(s, b);
      assert !HeldAt(s, freed, b);
    }
    forall b: nat | b < Meta(s') ensures !BlockIsFree(s', b) {
      assert !BlockIsFree(s, b);
      assert !HeldAt(s, freed, b);
    }
  }

  /** Owners that go without their blocks being freed leak them. */
  lemma DropsLeaks(s: Disk, s': Disk, freed: set<Ref>)
    requires FsOk(s) && NoLeaks(s) && Drops(s, s', freed)
    ensures NoLeaks(s') <==> forall r, b: nat | Owner(s, r, b) && r !in freed :: Owner(s', r, b)
  {
    if r, b: nat :| Owner(s, r, b) && r !in freed && !Owner(s', r, b) {
      assert InUse(s, b);
      assert !HeldAt(s, freed, b);
      assert InUse(s', b);
      assert !Owned(s', b);
    } else {
      forall b: nat | InUse(s', b) ensures Owned(s', b) {
        assert InUse(s, b) && Owned(s, b);
        var r :| Owner(s, r, b);
        assert r !in freed;
        assert Owner(s', r, b);
      }
    }
  }

  lemma DropsTrans(s: Disk, s1: Disk, s2: Disk, freed1: set<Ref>, freed2: set<Ref>)
    requires Sized(s) && Drops(s, s1, freed1) && Drops(s1, s2, freed2)
    requires forall r, b: nat | r in freed2 && Owner(s, r, b) :: Owner(s1, r, b)
    ensures Drops(s, s2, freed1 + freed2)
  {
    forall r, b: nat | Owner(s2, r, b) ensures Owner(s, r, b) && r !in freed1 + freed2 {
      assert Owner(s1, r, b);
    }
    forall b: nat | b < |s.data|
      ensures HeldAt(s, freed1 + freed2, b) <==> HeldAt(s, freed1, b) || HeldAt(s1, freed2, b)
    {
      if HeldAt(s1, freed2, b) {
        var r :| r in freed2 && Owner(s1, r, b);
        assert r in freed1 + freed2 && Owner(s, r, b);
      }
      if HeldAt(s, freed1, b) {
        var r :| r in freed1 && Owner(s, r, b);
        assert r in freed1 + freed2;
      }
      if HeldAt(s, freed1 + freed2, b) {
        var r :| r in freed1 + freed2 && Owner(s, r, b);
        assert r in freed2 ==> Owner(s1, r, b);
      }
    }
  }

  lemma FreeBits(s: Disk, b: nat, k: nat)
    requires Sized(s) && 0 < b < |s.data| && k < |s.data|
    ensures Sized(FreeBlock(s, b)) && (BlockIsFree(FreeBlock(s, b), k) <==> k == b || BlockIsFree(s, k))
  {
    SetBitMembers(s.bitmap, b, k);
  }

  /** From s to s' only file f has changed, and it has lost blocks. */
  ghost predicate Shrinks(s: Disk, s': Disk, f: Home) {
    && |s'.data| == |s.data| && IsHome(s, f)
    && (forall g | IsHome(s, g) && g != f :: SameMap(s, s', g) && SameView(s, s', g))
    && (forall n: nat | Shows(s', f, n) :: Shows(s, f, n) && At(s', Slot(f, n)) == At(s, Slot(f, n)))
    && (forall n: nat | n < NINDIRECT && At(s', Slot(f, n)) != 0 :: At(s', Slot(f, n)) == At(s, Slot(f, n)))
    && (At(s', Indirect(f)) != 0 ==> At(s', Indirect(f)) == At(s, Indirect(f)))
  }

  /** Then f is still there, and every owner of a block is one it had before. */
  lemma ShrinksOwners(s: Disk, s': Disk, f: Home)
    requires Shrinks(s, s', f)
    ensures IsHome(s', f) && (forall g | IsHome(s', g) :: IsHome(s, g))
    ensures forall r, b: nat | Owner(s', r, b) :: Owner(s, r, b)
  {
    assert Embeds(s', s, f) by {
      assert forall g | IsHome(s, g) && g != f :: SameView(s, s', g);
    }
    HomesInto(s', s, f);
    StaysHome(s, s', f);
    forall r, b: nat | Owner(s', r, b) ensures Owner(s, r, b) {
      if r.f != f {
        assert SameMap(s, s', r.f);
      }
    }
  }

  // ---------- clearing slots ----------

  /** Nothing but the struct File of f and its indirect block has changed. */
  ghost predicate OnlyFile(s: Disk, s': Disk, f: Home, ind: nat) {
    && |s'.data| == |s.data| && IsPtr(s, f)
    && (forall b: nat | b < |s.data| && b != f.b && (b == 0 || b != ind) :: s'.data[b] == s.data[b])
    && (forall w: nat | w < NINDIRECT && !(f.w <= w < f.w + FILE_WORDS) :: s'.data[f.b][w] == s.data[f.b][w])
  }

  lemma OnlyFileOthers(s: Disk, s': Disk, f: Home, g: Home)
    requires FsOk(s) && IsHome(s, f) && IsHome(s, g) && g != f && OnlyFile(s, s', f, At(s, Indirect(f)))
    ensures SameWords(s, s', g)
  {
    HomesApart(s, f, g);
    HomePlace(s, g);
    IndirectNoHome(s, g, f);
    IndirectNoHome(s, f, g);
    if At(s, Indirect(g)) != 0 {
      IndirectsApart(s, g, f);
    }
  }

  /** File f has lost its blocks from lo up to hi, and is otherwise what it was. */
  ghost predicate Cleared(s: Disk, s': Disk, f: Home, lo: nat, hi: nat) {
    && OnlyFile(s, s', f, At(s, Indirect(f)))
    && At(s', Indirect(f)) == At(s, Indirect(f)) && Size(s', f) == Size(s, f) && IsDir(s', f) == IsDir(s, f)
    && (forall k: nat | k < NINDIRECT :: At(s', Slot(f, k)) == if lo <= k < hi then 0 else At(s, Slot(f, k)))
  }

  lemma ClearedShrinks(s: Disk, s': Disk, f: Home, lo: nat, hi: nat)
    requires FsOk(s) && IsHome(s, f) && Cleared(s, s', f, lo, hi)
    ensures Shrinks(s, s', f)
  {
    forall g | IsHome(s, g) && g != f ensures SameMap(s, s', g) && SameView(s, s', g) {
      OnlyFileOthers(s, s', f, g);
      SameWordsSame(s, s', g);
    }
  }

  function SlotIf(f: Home, n: nat): set<Ref> { if n < NINDIRECT then {Slot(f, n)} else {} }

  lemma StoreOnlyFile(s: Disk, f: Home, n: nat, v: nat)
    requires IsPtr(s, f) && n < NINDIRECT && At(s, Indirect(f)) != f.b
    ensures OnlyFile(s, Store(s, f, n, v), f, At(s, Indirect(f)))
  {
  }

  lemma StoreCleared(s: Disk, f: Home, n: nat)
    requires IsPtr(s, f) && n < NINDIRECT && At(s, Indirect(f)) != f.b
    requires n < NDIRECT || 0 < At(s, Indirect(f)) < |s.data|
    ensures Cleared(s, Store(s, f, n, 0), f, n, n + 1)
  {
    StoreOwn(s, f, n, 0);
    StoreOnlyFile(s, f, n, 0);
  }

  lemma SameDataCleared(s: Disk, s1: Disk, s2: Disk, f: Home, lo: nat, hi: nat)
    requires Cleared(s, s1, f, lo, hi) && s2.data == s1.data
    ensures Cleared(s, s2, f, lo, hi)
  {
  }

  lemma ClearsSlot(s: Disk, f: Home, n: nat)
    requires Sized(s) && IsPtr(s, f) && n < NINDIRECT && At(s, Slot(f, n)) != 0
    ensures FileClearBlock(s, f, n).data == Store(s, f, n, 0).data
    ensures FileClearBlock(s, f, n).bitmap == FreeBlock(s, At(s, Slot(f, n))).bitmap
  {
    var s1 := FileBlockWalk(s, f, n, false).0;
    assert At(s1, Slot(f, n)) == At(s, Slot(f, n));
  }

  lemma ClearsNothing(s: Disk, f: Home, n: nat)
    requires Sized(s) && IsPtr(s, f) && (n < NINDIRECT ==> At(s, Slot(f, n)) == 0)
    ensures FileClearBlock(s, f, n).data == s.data && FileClearBlock(s, f, n).bitmap == s.bitmap
  {
    var s1 := FileBlockWalk(s, f, n, false).0;
    assert At(s1, Slot(f, n)) == At(s, Slot(f, n));
  }

  /** file_clear_block empties one slot. */
  lemma ClearBlockCleared(s: Disk, f: Home, n: nat)
    requires FsOk(s) && IsHome(s, f)
    ensures IsPtr(s, f) && Cleared(s, FileClearBlock(s, f, n), f, n, n + 1)
    ensures SameShape(s, FileClearBlock(s, f, n))
  {
    HomePlace(s, f);
    if n < NINDIRECT && At(s, Slot(f, n)) != 0 {
      IndirectNoHome(s, f, f);
      ClearsSlot(s, f, n);
      StoreCleared(s, f, n);
      SameDataCleared(s, Store(s, f, n, 0), FileClearBlock(s, f, n), f, n, n + 1);
    } else {
      ClearsNothing(s, f, n);
      assert Cleared(s, s, f, n, n + 1);
      SameDataCleared(s, s, FileClearBlock(s, f, n), f, n, n + 1);
    }
  }

  lemma ClearBlockBits(s: Disk, f: Home, n: nat, k: nat)
    requires FsOk(s) && IsHome(s, f) && k < |s.data|
    ensures IsPtr(s, f)
    ensures BlockIsFree(FileClearBlock(s, f, n), k) <==> BlockIsFree(s, k) || HeldAt(s, SlotIf(f, n), k)
  {
    HomePlace(s, f);
    var b := At(s, Slot(f, n));
    if n < NINDIRECT && b != 0 {
      assert Owner(s, Slot(f, n), b);
      FreeBits(s, b, k);
      assert Slot(f, n) in SlotIf(f, n);
      ClearsSlot(s, f, n);
    } else {
      assert !HeldAt(s, SlotIf(f, n), k);
    }
  }

  lemma ClearBlockDrops(s: Disk, f: Home, n: nat)
    requires FsOk(s) && IsHome(s, f)
    ensures IsPtr(s, f)
    ensures var s' := FileClearBlock(s, f, n);
      && Drops(s, s', SlotIf(f, n)) && Cleared(s, s', f, n, n + 1) && FsOk(s') && IsHome(s', f)
  {
    ClearBlockCleared(s, f, n);
    var s' := FileClearBlock(s, f, n);
    ClearedShrinks(s, s', f, n, n + 1);
    ShrinksOwners(s, s', f);
    forall k: nat | k < |s.data|
      ensures BlockIsFree(s', k) <==> BlockIsFree(s, k) || HeldAt(s, SlotIf(f, n), k)
    {
      ClearBlockBits(s, f, n, k);
    }
    DropsKeepsOk(s, s', SlotIf(f, n));
  }

  // ---------- file_truncate ----------

  /** The loop of file_truncate over the blocks from lo up to hi. */
  function ClearFrom(s: Disk, f: Home, lo: nat, hi: nat): (r: Disk)
    requires Sized(s) && IsPtr(s, f)
    ensures Sized(r) && SameShape(s, r)
    decreases hi - lo, s
  {
    if lo >= hi then s else ClearFrom(FileClearBlock(s, f, lo), f, lo + 1, hi)
  }

  function Slots(f: Home, lo: nat, hi: nat): set<Ref> {
    set n: nat | lo <= n < hi && n < NINDIRECT :: Slot(f, n)
  }

  lemma ClearedTrans(s: Disk, s1: Disk, s2: Disk, f: Home, lo: nat, hi: nat)
    requires lo < hi && Cleared(s, s1, f, lo, lo + 1) && Cleared(s1, s2, f, lo + 1, hi)
    ensures Cleared(s, s2, f, lo, hi)
  {
  }

  lemma ClearedHeld(s: Disk, s1: Disk, f: Home, lo: nat, hi: nat)
    requires IsHome(s1, f) && Cleared(s, s1, f, lo, lo + 1)
    ensures forall r, b: nat | r in Slots(f, lo + 1, hi) && Owner(s, r, b) :: Owner(s1, r, b)
  {
  }

  lemma ClearMore(s: Disk, s1: Disk, s': Disk, f: Home, lo: nat, hi: nat)
    requires Sized(s) && IsHome(s1, f) && lo < hi
    requires Drops(s, s1, SlotIf(f, lo)) && Cleared(s, s1, f, lo, lo + 1)
    requires Drops(s1, s', Slots(f, lo + 1, hi)) && Cleared(s1, s', f, lo + 1, hi)
    ensures Drops(s, s', Slots(f, lo, hi)) && Cleared(s, s', f, lo, hi)
  {
    ClearedHeld(s, s1, f, lo, hi);
    assert Slots(f, lo, hi) == SlotIf(f, lo) + Slots(f, lo + 1, hi);
    DropsTrans(s, s1, s', SlotIf(f, lo), Slots(f, lo + 1, hi));
    ClearedTrans(s, s1, s', f, lo, hi);
  }

  lemma ClearNone(s: Disk, f: Home, lo: nat, hi: nat)
    requires Sized(s) && IsPtr(s, f) && lo >= hi
    ensures Drops(s, s, Slots(f, lo, hi)) && Cleared(s, s, f, lo, hi)
  {
    assert forall b: nat :: !HeldAt(s, Slots(f, lo, hi), b);
  }

  lemma {:induction false} ClearFromDrops(s: Disk, f: Home, lo: nat, hi: nat)
    requires FsOk(s) && IsHome(s, f)
    ensures IsPtr(s, f)
    ensures var s' := ClearFrom(s, f, lo, hi);
      && Drops(s, s', Slots(f, lo, hi)) && Cleared(s, s', f, lo, hi) && FsOk(s') && IsHome(s', f)
    decreases hi - lo
  {
    HomePlace(s, f);
    if lo < hi {
      var s1 := FileClearBlock(s, f, lo);
      ClearBlockDrops(s, f, lo);
      ClearFromDrops(s1, f, lo + 1, hi);
      assert ClearFrom(s, f, lo, hi) == ClearFrom(s1, f, lo + 1, hi);
      ClearMore(s, s1, ClearFrom(s1, f, lo + 1, hi), f, lo, hi);
    } else {
      ClearNone(s, f, lo, hi);
    }
  }

  function BlockCount(size: nat): nat { size / BY2BLK + 1 }

  function NewCount(size: nat): nat { if size == 0 then 0 else BlockCount(size) }

  function FreeIndirect(s: Disk, f: Home): Disk
    requires Sized(s) && IsPtr(s, f)
  {
    if At(s, Indirect(f)) == 0 then s else SetField(FreeBlock(s, At(s, Indirect(f))), f, INDIRECT_WORD, 0)
  }

  function SetSize(s: Disk, f: Home, size: nat): Disk
    requires IsPtr(s, f)
  {
    SetField(s, f, SIZE_WORD, size)
  }

  /** The part of file_truncate before the size is set. */
  function Emptied(s: Disk, f: Home, size: nat): Disk
    requires Sized(s) && IsPtr(s, f)
  {
    var s1 := ClearFrom(s, f, NewCount(size), BlockCount(Size(s, f)));
    if NewCount(size) <= NDIRECT then FreeIndirect(s1, f) else s1
  }

  function FileTruncate(s: Disk, f: Home, size: nat): Disk
    requires Sized(s) && IsPtr(s, f)
  {
    SetSize(Emptied(s, f, size), f, size)
  }

  lemma FreeIndirectDrops(s: Disk, f: Home)
    requires FsOk(s) && IsHome(s, f)
    ensures IsPtr(s, f)
    ensures var s' := FreeIndirect(s, f);
      && Drops(s, s', {Indirect(f)}) && FsOk(s') && IsHome(s', f) && IndirectFreed(s, s', f)
  {
    HomePlace(s, f);
    IndirectFreedIs(s, f);
    var s', b := FreeIndirect(s, f), At(s, Indirect(f));
    IndirectShrinks(s, s', f);
    ShrinksOwners(s, s', f);
    forall k: nat | k < |s.data|
      ensures BlockIsFree(s', k) <==> BlockIsFree(s, k) || HeldAt(s, {Indirect(f)}, k)
    {
      FreeIndirectBits(s, f, k);
    }
    DropsKeepsOk(s, s', {Indirect(f)});
  }

  /** The indirect block, and with it all that it listed, has gone from file f. */
  ghost predicate IndirectFreed(s: Disk, s': Disk, f: Home) {
    && OnlyFile(s, s', f, 0) && SameShape(s, s')
    && At(s', Indirect(f)) == 0 && Size(s', f) == Size(s, f) && IsDir(s', f) == IsDir(s, f)
    && (forall k: nat | k < NINDIRECT :: At(s', Slot(f, k)) == if k < NDIRECT then At(s, Slot(f, k)) else 0)
  }

  lemma IndirectFreedIs(s: Disk, f: Home)
    requires FsOk(s) && IsHome(s, f) && IsPtr(s, f)
    ensures IndirectFreed(s, FreeIndirect(s, f), f)
  {
    IndirectNoHome(s, f, f);
    if At(s, Indirect(f)) != 0 {
      SetFieldOwn(FreeBlock(s, At(s, Indirect(f))), f, INDIRECT_WORD, 0);
      var s' := FreeIndirect(s, f);
      forall k: nat | k < NDIRECT ensures At(s', Slot(f, k)) == At(s, Slot(f, k)) {
        assert Field(s', f, DIRECT_WORD + k) == Field(s, f, DIRECT_WORD + k);
      }
    }
  }

  lemma IndirectShrinks(s: Disk, s': Disk, f: Home)
    requires FsOk(s) && IsHome(s, f) && IndirectFreed(s, s', f)
    ensures Shrinks(s, s', f)
  {
    forall g | IsHome(s, g) && g != f ensures SameMap(s, s', g) && SameView(s, s', g) {
      OnlyFileOthers(s, s', f, g);
      SameWordsSame(s, s', g);
    }
  }

  lemma FreeIndirectBits(s: Disk, f: Home, k: nat)
    requires FsOk(s) && IsHome(s, f) && IsPtr(s, f) && k < |s.data|
    ensures BlockIsFree(FreeIndirect(s, f), k) <==> BlockIsFree(s, k) || HeldAt(s, {Indirect(f)}, k)
  {
    var b := At(s, Indirect(f));
    if b != 0 {
      assert Owner(s, Indirect(f), b);
      FreeBits(s, b, k);
      assert FreeIndirect(s, f).bitmap == FreeBlock(s, b).bitmap;
    } else {
      assert !HeldAt(s, {Indirect(f)}, k);
    }
  }

  /** The size of f is now `size`, which matters only to what f shows. */
  ghost predicate Sizes(s: Disk, s': Disk, f: Home, size: nat) {
    && OnlyFile(s, s', f, 0) && s' == s.(data := s'.data)
    && Size(s', f) == size && IsDir(s', f) == IsDir(s, f) && SameMap(s, s', f)
  }

  lemma SetSizeIs(s: Disk, f: Home, size: nat)
    requires FsOk(s) && IsHome(s, f)
    ensures IsPtr(s, f) && Sizes(s, SetSize(s, f, size), f, size)
  {
    HomePlace(s, f);
    IndirectNoHome(s, f, f);
    SetFieldOwn(s, f, SIZE_WORD, size);
    var s' := SetSize(s, f, size);
    forall k: nat | k < NINDIRECT ensures At(s', Slot(f, k)) == At(s, Slot(f, k)) {
      if k < NDIRECT {
        assert Field(s', f, DIRECT_WORD + k) == Field(s, f, DIRECT_WORD + k);
      }
    }
  }

  lemma SizesOthers(s: Disk, s': Disk, f: Home, size: nat)
    requires FsOk(s) && IsHome(s, f) && Sizes(s, s', f, size)
    ensures forall g | IsHome(s, g) && g != f :: SameMap(s, s', g) && SameView(s, s', g)
  {
    forall g | IsHome(s, g) && g != f ensures SameMap(s, s', g) && SameView(s, s', g) {
      OnlyFileOthers(s, s', f, g);
      SameWordsSame(s, s', g);
    }
  }

  lemma SetSizeDrops(s: Disk, f: Home, size: nat)
    requires FsOk(s) && IsHome(s, f) && size <= Size(s, f)
    ensures IsPtr(s, f)
    ensures var s' := SetSize(s, f, size);
      && Drops(s, s', {}) && FsOk(s') && IsHome(s', f) && Sizes(s, s', f, size)
  {
    SetSizeIs(s, f, size);
    var s' := SetSize(s, f, size);
    SizesOthers(s, s', f, size);
    assert size / BY2BLK <= Size(s, f) / BY2BLK;
    assert Shrinks(s, s', f);
    ShrinksOwners(s, s', f);
    assert forall b: nat | b < |s.data| :: BlockIsFree(s', b) == BlockIsFree(s, b) && !HeldAt(s, {}, b);
    DropsKeepsOk(s, s', {});
  }

  /** The places whose blocks truncation to `size` bytes frees. */
  function Freed(s: Disk, f: Home, size: nat): set<Ref> {
    Slots(f, NewCount(size), BlockCount(Size(s, f))) + FreedIndirect(f, size)
  }

  function FreedIndirect(f: Home, size: nat): set<Ref> {
    if NewCount(size) <= NDIRECT then {Indirect(f)} else {}
  }

  /** Truncation to `size` bytes empties this place of the file. */
  predicate Gone(s: Disk, f: Home, size: nat, n: nat) {
    NewCount(size) <= n < BlockCount(Size(s, f)) || (n >= NDIRECT && NewCount(size) <= NDIRECT)
  }

  /** File f without what truncation to `size` bytes takes, place by place; newSize is what its
      size is now. */
  ghost predicate Truncated(s: Disk, s': Disk, f: Home, size: nat, newSize: nat) {
    && OnlyFile(s, s', f, At(s, Indirect(f))) && Size(s', f) == newSize && IsDir(s', f) == IsDir(s, f)
    && At(s', Indirect(f)) == (if NewCount(size) <= NDIRECT then 0 else At(s, Indirect(f)))
    && (forall n: nat | n < NINDIRECT :: At(s', Slot(f, n)) == if Gone(s, f, size, n) then 0 else At(s, Slot(f, n)))
  }

  lemma EmptiedDrops(s: Disk, f: Home, size: nat)
    requires FsOk(s) && IsHome(s, f)
    ensures IsPtr(s, f)
    ensures var s' := Emptied(s, f, size);
      && Drops(s, s', Freed(s, f, size)) && FsOk(s') && IsHome(s', f)
      && Truncated(s, s', f, size, Size(s, f))
  {
    var now, was := NewCount(size), BlockCount(Size(s, f));
    HomePlace(s, f);
    ClearFromDrops(s, f, now, was);
    var s1 := ClearFrom(s, f, now, was);
    if now <= NDIRECT {
      FreeIndirectDrops(s1, f);
      assert At(s1, Indirect(f)) == At(s, Indirect(f));
      DropsTrans(s, s1, FreeIndirect(s1, f), Slots(f, now, was), {Indirect(f)});
    } else {
      assert Freed(s, f, size) == Slots(f, now, was);
    }
  }

  /** Truncation empties exactly the places that are gone, frees exactly the blocks of those in
      Freed, touches no other file's block map, and leaves used blocks apart and in use.  The
      callers never ask for a larger size. */
  lemma TruncateDrops(s: Disk, f: Home, size: nat)
    requires FsOk(s) && IsHome(s, f) && size <= Size(s, f)
    ensures IsPtr(s, f)
    ensures var s' := FileTruncate(s, f, size);
      && Drops(s, s', Freed(s, f, size)) && FsOk(s') && IsHome(s', f)
      && Truncated(s, s', f, size, size)
      && forall g | IsHome(s, g) && g != f :: SameMap(s, s', g) && SameView(s, s', g)
  {
    EmptiedDrops(s, f, size);
    var s1 := Emptied(s, f, size);
    SetSizeDrops(s1, f, size);
    var s' := SetSize(s1, f, size);
    DropsTrans(s, s1, s', Freed(s, f, size), {});
    assert Freed(s, f, size) + {} == Freed(s, f, size);
    TruncatedOthers(s, s', f, size);
  }

  lemma TruncatedOthers(s: Disk, s': Disk, f: Home, size: nat)
    requires FsOk(s) && IsHome(s, f) && Truncated(s, s', f, size, size)
    ensures forall g | IsHome(s, g) && g != f :: SameMap(s, s', g) && SameView(s, s', g)
  {
    forall g | IsHome(s, g) && g != f ensures SameMap(s, s', g) && SameView(s, s', g) {
      OnlyFileOthers(s, s', f, g);
      SameWordsSame(s, s', g);
    }
  }

  /** Place by place: truncation keeps the blocks before the new end and after the old end,
      except that without an indirect block nothing is left in it. */
  lemma TruncateSlots(s: Disk, f: Home, size: nat, n: nat)
    requires FsOk(s) && IsHome(s, f) && size <= Size(s, f) && n < NINDIRECT
    ensures IsPtr(s, f)
    ensures var s' := FileTruncate(s, f, size);
      && Size(s', f) == size
      && At(s', Slot(f, n)) ==
           (if n < NewCount(size) then At(s, Slot(f, n))
            else if n < BlockCount(Size(s, f)) || (n >= NDIRECT && NewCount(size) <= NDIRECT) then 0
            else At(s, Slot(f, n)))
      && At(s', Indirect(f)) == if NewCount(size) <= NDIRECT then 0 else At(s, Indirect(f))
  {
    TruncateDrops(s, f, size);
  }

  /** Truncation gives up the indirect block of a file only if that has no blocks beyond its
      size in it. */
  ghost predicate NothingBeyond(s: Disk, f: Home, size: nat) {
    NewCount(size) <= NDIRECT ==>
      forall n: nat | NDIRECT <= n < NINDIRECT && n >= BlockCount(Size(s, f)) :: At(s, Slot(f, n)) == 0
  }

  /** The files, in use or not, in the blocks of f from the new end on have no blocks. */
  ghost predicate ChildrenBarren(s: Disk, f: Home, size: nat) {
    forall n: nat, k: nat | Shows(s, f, n) && n >= size / BY2BLK && k < FILE2BLK :: Barren(s, ChildAt(s, f, n, k))
  }

  lemma TruncatedShows(s: Disk, s': Disk, f: Home, size: nat, n: nat)
    requires Truncated(s, s', f, size, size) && size <= Size(s, f)
    ensures Shows(s', f, n) <==> Shows(s, f, n) && n < size / BY2BLK
    ensures Shows(s', f, n) ==> At(s', Slot(f, n)) == At(s, Slot(f, n))
  {
  }

  lemma TruncatedEmbeds(s: Disk, s': Disk, f: Home, size: nat)
    requires FsOk(s) && IsHome(s, f) && Truncated(s, s', f, size, size) && size <= Size(s, f)
    ensures Embeds(s', s, f)
    ensures ChildrenBarren(s, f, size) ==> MoreIsBarren(s', s, f)
  {
    TruncatedOthers(s, s', f, size);
    forall n: nat ensures Shows(s', f, n) <==> Shows(s, f, n) && n < size / BY2BLK
      ensures Shows(s', f, n) ==> At(s', Slot(f, n)) == At(s, Slot(f, n)) {
      TruncatedShows(s, s', f, size, n);
    }
  }

  lemma NothingLost(s: Disk, s': Disk, f: Home, size: nat, r: Ref, b: nat)
    requires FsOk(s) && IsHome(s, f) && Truncated(s, s', f, size, size) && size <= Size(s, f)
    requires NothingBeyond(s, f, size) && ChildrenBarren(s, f, size)
    requires Owner(s, r, b) && r !in Freed(s, f, size)
    ensures Owner(s', r, b)
  {
    TruncatedEmbeds(s, s', f, size);
    HomesBack(s', s, f);
    assert !Barren(s, r.f);
    if r.f != f {
      TruncatedOthers(s, s', f, size);
      assert SameMap(s, s', r.f);
    } else if r.Slot? {
      assert At(s', Slot(f, r.n)) == if Gone(s, f, size, r.n) then 0 else At(s, Slot(f, r.n));
    }
  }

  /** Only one place shows a block. */
  lemma ShownOnce(s: Disk, f: Home, n: nat)
    requires FsOk(s) && IsHome(s, f) && Shows(s, f, n)
    ensures forall d, m: nat | IsHome(s, d) && Shows(s, d, m) && At(s, Slot(d, m)) == At(s, Slot(f, n)) ::
      d == f && m == n
  {
    assert Owner(s, Slot(f, n), At(s, Slot(f, n)));
    forall d, m: nat | IsHome(s, d) && Shows(s, d, m) && At(s, Slot(d, m)) == At(s, Slot(f, n))
      ensures d == f && m == n
    {
      assert Owner(s, Slot(d, m), At(s, Slot(d, m)));
    }
  }

  lemma DropsShown(s: Disk, s': Disk, freed: set<Ref>, d: Home, m: nat)
    requires Sized(s) && Drops(s, s', freed) && IsHome(s', d) && Shows(s', d, m)
    ensures Owner(s, Slot(d, m), At(s', Slot(d, m)))
  {
    assert Owner(s', Slot(d, m), At(s', Slot(d, m)));
  }

  /** A file that was reached through a block which f no longer shows is reached no more. */
  lemma ChildGone(s: Disk, s': Disk, f: Home, n: nat, k: nat, freed: set<Ref>)
    requires FsOk(s) && IsHome(s, f) && Drops(s, s', freed)
    requires Shows(s, f, n) && !Shows(s', f, n) && k < FILE2BLK
    ensures !IsHome(s', ChildAt(s, f, n, k))
  {
    assert Owner(s, Slot(f, n), At(s, Slot(f, n))) && InUse(s, At(s, Slot(f, n)));
    if IsHome(s', ChildAt(s, f, n, k)) {
      var d, m, j := Parent(s', ChildAt(s, f, n, k));
      DropsShown(s, s', freed, d, m);
    }
  }

  /** f is none of the files in its own blocks. */
  lemma NoOwnChild(s: Disk, f: Home, n: nat, k: nat)
    requires FsOk(s) && IsHome(s, f) && Shows(s, f, n) && k < FILE2BLK
    ensures ChildAt(s, f, n, k) != f
  {
    ShownOnce(s, f, n);
    assert Owner(s, Slot(f, n), At(s, Slot(f, n))) && InUse(s, At(s, Slot(f, n)));
    if f.b == At(s, Slot(f, n)) {
      var d, m, j := Parent(s, f);
    }
  }

  /** Truncation leaks blocks exactly when it gives up the indirect block of a file that has
      blocks beyond its size there, or the blocks of a directory with files that have blocks. */
  lemma TruncateLeaks(s: Disk, f: Home, size: nat)
    requires FsOk(s) && NoLeaks(s) && IsHome(s, f) && size <= Size(s, f)
    ensures IsPtr(s, f) && Sized(FileTruncate(s, f, size))
    ensures NoLeaks(FileTruncate(s, f, size)) <==> NothingBeyond(s, f, size) && ChildrenBarren(s, f, size)
  {
    TruncateDrops(s, f, size);
    var s', freed := FileTruncate(s, f, size), Freed(s, f, size);
    DropsLeaks(s, s', freed);
    if NothingBeyond(s, f, size) && ChildrenBarren(s, f, size) {
      forall r, b: nat | Owner(s, r, b) && r !in freed ensures Owner(s', r, b) {
        NothingLost(s, s', f, size, r, b);
      }
    } else if !NothingBeyond(s, f, size) {
      BeyondLost(s, s', f, size);
    } else {
      ChildrenLost(s, s', f, size);
    }
  }

  lemma BeyondLost(s: Disk, s': Disk, f: Home, size: nat)
    requires FsOk(s) && IsHome(s, f) && Truncated(s, s', f, size, size) && !NothingBeyond(s, f, size)
    ensures exists r, b: nat :: Owner(s, r, b) && r !in Freed(s, f, size) && !Owner(s', r, b)
  {
    var n: nat :| NDIRECT <= n < NINDIRECT && n >= BlockCount(Size(s, f)) && At(s, Slot(f, n)) != 0;
    assert Owner(s, Slot(f, n), At(s, Slot(f, n)));
  }

  lemma ChildrenLost(s: Disk, s': Disk, f: Home, size: nat)
    requires FsOk(s) && IsHome(s, f) && Truncated(s, s', f, size, size) && size <= Size(s, f)
    requires Drops(s, s', Freed(s, f, size)) && !ChildrenBarren(s, f, size)
    ensures exists r, b: nat :: Owner(s, r, b) && r !in Freed(s, f, size) && !Owner(s', r, b)
  {
    var n: nat, k: nat :| Shows(s, f, n) && n >= size / BY2BLK && k < FILE2BLK && !Barren(s, ChildAt(s, f, n, k));
    var c := ChildAt(s, f, n, k);
    TruncatedShows(s, s', f, size, n);
    ChildIsHome(s, f, n, k);
    NoOwnChild(s, f, n, k);
    ChildGone(s, s', f, n, k, Freed(s, f, size));
    if At(s, Indirect(c)) != 0 {
      assert Owner(s, Indirect(c), At(s, Indirect(c)));
    } else {
      var m: nat :| m < NINDIRECT && At(s, Slot(c, m)) != 0;
      assert Owner(s, Slot(c, m), At(s, Slot(c, m)));
    }
  }
}
