/** Taking blocks: file_block_walk and file_map_block, and what the old contents of blocks do when
    they come to hold block numbers (fs/fs.c). */
module BlockMaps {
  import opened Mmu
  import opened Bitmaps
  import opened FileTree
  import opened FileBlocks

  // ---------- taking blocks ----------

  /** s' has block b taken from the free ones, and given to no file yet; the words of blocks
      that were in use are as they were. */
  ghost predicate Claims(s: Disk, s': Disk, b: nat)
    requires Sized(s)
  {
    && Sized(s') && SameShape(s, s') && BlockIsFree(s, b) && Meta(s) <= b
    && (forall k: nat | k < |s.data| :: BlockIsFree(s', k) <==> BlockIsFree(s, k) && k != b)
    && (forall k: nat | k < |s.data| && !BlockIsFree(s, k) :: s'.data[k] == s.data[k])
  }

  /** alloc_block does so, and shows the block as the cache has it, or else as zeros. */
  ghost predicate Takes(s: Disk, s': Disk, b: nat)
    requires Sized(s)
  {
    Claims(s, s', b) && s'.data == s.data[b := if b in s.cached then s.data[b] else ZeroWords()]
  }

  /** alloc_block takes the first free block from 3 on, or fails and changes nothing: when
      map_block fails the block goes back. */
  lemma AllocBlockTakes(s: Disk)
    requires Sized(s) && MetaInUse(s)
    ensures var (s', b) := AllocBlock(s);
      && (b < 0 ==> s' == s)
      && (b == -E_NO_DISK <==> forall k: nat | 3 <= k < |s.data| :: !BlockIsFree(s, k))
      && (b < 0 && b != -E_NO_DISK ==> b == -E_NO_MEM && s.pages == 0)
      && (b >= 0 ==> Takes(s, s', b) && forall k: nat | 3 <= k < b :: !BlockIsFree(s, k))
  {
    if |s.data| > 3 && FirstFree(s, 3) < |s.data| {
      var b := FirstFree(s, 3);
      ClearThenSet(s.bitmap, b);
      forall k: nat | k < |s.data|
        ensures Has(ClearBit(s.bitmap, b), k) <==> Has(s.bitmap, k) && k != b
      {
        ClearBitMembers(s.bitmap, b, k);
      }
    }
  }

  lemma ClaimKeepsOk(s: Disk, s': Disk, b: nat)
    requires FsOk(s) && Claims(s, s', b)
    ensures FsOk(s') && forall g | IsHome(s, g) :: SameMap(s, s', g) && SameView(s, s', g)
    ensures forall g :: IsHome(s', g) <==> IsHome(s, g)
    ensures forall r, c: nat :: Owner(s', r, c) <==> Owner(s, r, c)
  {
    forall g | IsHome(s, g) ensures SameMap(s, s', g) && SameView(s, s', g) {
      FreeWords(s, s', g);
      SameWordsSame(s, s', g);
    }
    SameOwners(s, s');
    forall r, c: nat | Owner(s', r, c) ensures InUse(s', c) {
      assert Owner(s, r, c) && InUse(s, c);
    }
  }

  /** The place r0, empty before, now holds b, which was free. */
  ghost predicate Gains(s: Disk, s': Disk, r0: Ref, b: nat)
    requires Sized(s)
  {
    && Sized(s') && SameShape(s, s') && Meta(s) <= b < |s.data| && BlockIsFree(s, b)
    && (forall r, c: nat :: Owner(s', r, c) <==> Owner(s, r, c) || (r == r0 && c == b))
    && (forall k: nat | k < |s.data| :: BlockIsFree(s', k) <==> BlockIsFree(s, k) && k != b)
  }

  lemma GainsKeepsOk(s: Disk, s': Disk, r0: Ref, b: nat)
    requires FsOk(s) && Gains(s, s', r0, b) && forall c: nat :: !Owner(s, r0, c)
    ensures FsOk(s')
  {
    assert forall r, c: nat | Owner(s, r, c) :: InUse(s, c) && c != b;
    forall r, c: nat | Owner(s', r, c) ensures InUse(s', c) {
      assert Owner(s, r, c) || c == b;
    }
  }

  lemma GainsNoLeaks(s: Disk, s': Disk, r0: Ref, b: nat)
    requires Sized(s) && NoLeaks(s) && Gains(s, s', r0, b)
    ensures NoLeaks(s')
  {
    forall k: nat | InUse(s', k) ensures Owned(s', k) {
      if k == b {
        assert Owner(s', r0, k);
      } else {
        assert InUse(s, k) && Owned(s, k);
        var r :| Owner(s, r, k);
        assert Owner(s', r, k);
      }
    }
  }

  // ---------- blocks without block numbers ----------

  /** Word i of the k-th struct File that a directory finds in the block. */
  function FileWord(words: Words, k: nat, i: nat): nat
    requires k < FILE2BLK && i < FILE_WORDS
  {
    words[FILE_WORDS * k + i]
  }

  /** The struct Files that a directory finds in the block have no blocks. */
  ghost predicate NoPointers(words: Words) {
    forall k: nat, i: nat | k < FILE2BLK && DIRECT_WORD <= i <= INDIRECT_WORD :: FileWord(words, k, i) == 0
  }

  lemma NoPointersBarren(s: Disk, b: nat)
    requires b < |s.data|
    ensures NoPointers(s.data[b]) <==> forall k: nat | k < FILE2BLK :: Barren(s, Home(b, FILE_WORDS * k))
  {
    if NoPointers(s.data[b]) {
      forall k: nat | k < FILE2BLK ensures Barren(s, Home(b, FILE_WORDS * k)) {
        PointersAt(s, b, k);
        assert FileWord(s.data[b], k, INDIRECT_WORD) == 0;
      }
    } else {
      var k: nat, i: nat :| k < FILE2BLK && DIRECT_WORD <= i <= INDIRECT_WORD && FileWord(s.data[b], k, i) != 0;
      PointersAt(s, b, k);
      assert i < INDIRECT_WORD ==> At(s, Slot(Home(b, FILE_WORDS * k), i - DIRECT_WORD)) != 0;
      assert !Barren(s, Home(b, FILE_WORDS * k));
    }
  }

  lemma PointersAt(s: Disk, b: nat, k: nat)
    requires b < |s.data| && k < FILE2BLK
    ensures var c := Home(b, FILE_WORDS * k);
      && (forall n: nat | n < NDIRECT :: At(s, Slot(c, n)) == FileWord(s.data[b], k, DIRECT_WORD + n))
      && At(s, Indirect(c)) == FileWord(s.data[b], k, INDIRECT_WORD)
      && (At(s, Indirect(c)) == 0 ==> forall n: nat | n >= NDIRECT :: At(s, Slot(c, n)) == 0)
  {
  }

  lemma ZeroNoPointers()
    ensures NoPointers(ZeroWords())
  {
  }

  // ---------- trees that grow ----------

  /** From s to s' only file f has changed, and it has gained or come to show blocks. */
  ghost predicate Grows(s: Disk, s': Disk, f: Home) {
    && |s'.data| == |s.data| && IsHome(s, f)
    && (forall g | IsHome(s, g) && g != f :: SameMap(s, s', g) && SameView(s, s', g))
    && (forall n: nat | Shows(s, f, n) :: Shows(s', f, n) && At(s', Slot(f, n)) == At(s, Slot(f, n)))
    && (forall n: nat | n < NINDIRECT && At(s, Slot(f, n)) != 0 :: At(s', Slot(f, n)) == At(s, Slot(f, n)))
    && (At(s, Indirect(f)) != 0 ==> At(s', Indirect(f)) == At(s, Indirect(f)))
  }

  /** Then every owner of a block still is one. */
  lemma GrowsKeepsOwners(s: Disk, s': Disk, f: Home)
    requires Grows(s, s', f)
    ensures Embeds(s, s', f) && forall g | IsHome(s, g) :: IsHome(s', g)
    ensures forall r, b: nat | Owner(s, r, b) :: Owner(s', r, b)
  {
    assert forall g | IsHome(s, g) && g != f :: SameView(s, s', g);
    HomesInto(s, s', f);
    forall r, b: nat | Owner(s, r, b) ensures Owner(s', r, b) {
      if r.f != f {
        assert SameMap(s, s', r.f);
      }
    }
  }

  /** And if what f has come to show has no blocks, every other owner was one before. */
  lemma GrowsNoOthers(s: Disk, s': Disk, f: Home)
    requires Grows(s, s', f) && MoreIsBarren(s, s', f)
    ensures forall r, b: nat | Owner(s', r, b) && r.f != f :: Owner(s, r, b)
  {
    GrowsKeepsOwners(s, s', f);
    HomesBack(s, s', f);
    forall r, b: nat | Owner(s', r, b) && r.f != f ensures Owner(s, r, b) {
      assert !Barren(s', r.f);
      assert SameMap(s, s', r.f);
    }
  }

  /** From s to s' the place r0 has changed from empty to b, and no other place of that file. */
  ghost predicate OnePlace(s: Disk, s': Disk, r0: Ref, b: nat) {
    && IsRef(s, r0) && Grows(s, s', r0.f) && MoreIsBarren(s, s', r0.f) && At(s, r0) == 0 && At(s', r0) == b
    && forall r: Ref | r.f == r0.f && r != r0 && (r.Slot? ==> r.n < NINDIRECT) :: At(s', r) == At(s, r)
  }

  lemma OnePlaceOwners(s: Disk, s': Disk, r0: Ref, b: nat)
    requires OnePlace(s, s', r0, b) && b != 0
    ensures forall r, c: nat :: Owner(s', r, c) <==> Owner(s, r, c) || (r == r0 && c == b)
  {
    GrowsKeepsOwners(s, s', r0.f);
    GrowsNoOthers(s, s', r0.f);
    forall r, c: nat ensures Owner(s', r, c) <==> Owner(s, r, c) || (r == r0 && c == b) {
      if r.f == r0.f && r != r0 && (r.Slot? ==> r.n < NINDIRECT) {
        assert At(s', r) == At(s, r);
      }
    }
  }

  /** A block number where there was none, that makes no difference to what exists. */
  lemma GrowsGains(s: Disk, s1: Disk, s': Disk, r0: Ref, b: nat)
    requires FsOk(s) && Claims(s, s1, b) && s'.bitmap == s1.bitmap && OnePlace(s1, s', r0, b)
    ensures Gains(s, s', r0, b) && forall c: nat :: !Owner(s, r0, c)
  {
    ClaimKeepsOk(s, s1, b);
    OnePlaceOwners(s1, s', r0, b);
    assert forall c: nat :: !Owner(s1, r0, c);
    assert forall k: nat | k < |s.data| :: BlockIsFree(s', k) == BlockIsFree(s1, k);
  }

  // ---------- file_block_walk with alloc set ----------

  /** The walk to block n of file f makes an indirect block. */
  predicate MakesIndirect(s: Disk, f: Home, n: nat)
    requires Sized(s)
  {
    NDIRECT <= n < NINDIRECT && At(s, Indirect(f)) == 0 && AllocBlock(s).1 >= 0
  }

  /** The new indirect block is one whose old contents are still in the cache. */
  predicate StaleIndex(s: Disk, f: Home, n: nat)
    requires Sized(s)
  {
    && MakesIndirect(s, f, n) && AllocBlock(s).1 < |s.data|
    && AllocBlock(s).1 in s.cached
    && exists k: nat :: NDIRECT <= k < NINDIRECT && s.data[AllocBlock(s).1][k] != 0
  }

  /** f gets the indirect block b, which lists nothing. */
  lemma NewIndex(s: Disk, s': Disk, f: Home, b: nat)
    requires FsOk(s) && IsHome(s, f) && IsPtr(s, f) && At(s, Indirect(f)) == 0 && 0 < b < |s.data| && b != f.b
    requires s'.data == SetField(s, f, INDIRECT_WORD, b).data
    requires forall k: nat | NDIRECT <= k < NINDIRECT :: s.data[b][k] == 0
    ensures Grows(s, s', f) && MoreIsBarren(s, s', f) && At(s', Indirect(f)) == b
    ensures forall n: nat :: At(s', Slot(f, n)) == At(s, Slot(f, n))
    ensures IsDir(s', f) == IsDir(s, f) && Size(s', f) == Size(s, f)
  {
    NewIndexOwn(s, s', f, b);
    forall g | IsHome(s, g) && g != f ensures SameMap(s, s', g) && SameView(s, s', g) {
      SetFieldOthers(s, f, INDIRECT_WORD, b, g);
      SameWordsSame(s, s', g);
    }
  }

  lemma NewIndexOwn(s: Disk, s': Disk, f: Home, b: nat)
    requires IsPtr(s, f) && At(s, Indirect(f)) == 0 && 0 < b < |s.data| && b != f.b
    requires s'.data == SetField(s, f, INDIRECT_WORD, b).data
    ensures At(s', Indirect(f)) == b && IsDir(s', f) == IsDir(s, f) && Size(s', f) == Size(s, f)
    ensures forall n: nat | n < NDIRECT :: At(s', Slot(f, n)) == At(s, Slot(f, n))
    ensures forall n: nat | NDIRECT <= n < NINDIRECT :: At(s', Slot(f, n)) == s.data[b][n]
  {
    forall n: nat | n < NDIRECT ensures At(s', Slot(f, n)) == At(s, Slot(f, n)) {
      assert Field(s', f, DIRECT_WORD + n) == Field(s, f, DIRECT_WORD + n);
    }
  }

  lemma FreshBlock(s: Disk, s1: Disk, b: nat, f: Home)
    requires FsOk(s) && Claims(s, s1, b) && IsHome(s, f)
    ensures IsPtr(s, f) && b != f.b && b != At(s, Indirect(f)) && 0 < b < |s.data|
  {
    HomeInUse(s, f);
    if At(s, Indirect(f)) != 0 {
      IndirectInUse(s, f);
    }
  }

  lemma WalkGains(s: Disk, f: Home, n: nat)
    requires FsOk(s) && IsHome(s, f) && MakesIndirect(s, f, n) && !StaleIndex(s, f, n)
    ensures IsPtr(s, f)
    ensures var s', b := FileBlockWalk(s, f, n, true).0, AllocBlock(s).1;
      && Gains(s, s', Indirect(f), b) && (forall c: nat :: !Owner(s, Indirect(f), c))
      && SameFile(s, s', f) && At(s', Indirect(f)) == b && IsHome(s', f)
      && forall g | IsHome(s, g) && g != f :: IsHome(s', g) && SameMap(s, s', g)
  {
    AllocBlockTakes(s);
    var (s1, b) := AllocBlock(s);
    ClaimKeepsOk(s, s1, b);
    FreshBlock(s, s1, b, f);
    assert SameMap(s, s1, f);
    FreeWords(s, s1, f);
    var s' := FileBlockWalk(s, f, n, true).0;
    NewIndex(s1, s', f, b);
    GrowsKeepsOwners(s1, s', f);
    GrowsGains(s, s1, s', Indirect(f), b);
  }

  /** f has the same size, kind and slots. */
  ghost predicate SameFile(s: Disk, s': Disk, f: Home) {
    && |s'.data| == |s.data| && Size(s', f) == Size(s, f) && IsDir(s', f) == IsDir(s, f)
    && forall n: nat | n < NINDIRECT :: At(s', Slot(f, n)) == At(s, Slot(f, n))
  }

  lemma MadeIndexKeepsOk(s: Disk, f: Home, n: nat)
    requires FsOk(s) && IsHome(s, f) && MakesIndirect(s, f, n) && !StaleIndex(s, f, n)
    ensures IsPtr(s, f)
    ensures var s' := FileBlockWalk(s, f, n, true).0;
      && FsOk(s') && SameShape(s, s') && (NoLeaks(s) ==> NoLeaks(s'))
      && SameFile(s, s', f) && IsHome(s', f) && At(s', Indirect(f)) != 0
  {
    WalkGains(s, f, n);
    var s', b := FileBlockWalk(s, f, n, true).0, AllocBlock(s).1;
    GainsKeepsOk(s, s', Indirect(f), b);
    if NoLeaks(s) {
      GainsNoLeaks(s, s', Indirect(f), b);
    }
  }

  /** file_block_walk leaves the file system in order unless the new indirect block is stale. */
  lemma WalkKeepsOk(s: Disk, f: Home, n: nat, alloc: bool)
    requires FsOk(s) && IsHome(s, f) && !(alloc && StaleIndex(s, f, n))
    ensures IsPtr(s, f)
    ensures var (s', r) := FileBlockWalk(s, f, n, alloc);
      && FsOk(s') && SameShape(s, s') && (NoLeaks(s) ==> NoLeaks(s'))
      && SameFile(s, s', f) && IsHome(s', f)
      && (r == 0 ==> n < NINDIRECT && (n < NDIRECT || At(s', Indirect(f)) != 0))
  {
    HomePlace(s, f);
    if alloc && MakesIndirect(s, f, n) {
      MadeIndexKeepsOk(s, f, n);
    } else {
      AllocBlockTakes(s);
      var s' := FileBlockWalk(s, f, n, alloc).0;
      SameDataSame(s, s');
      SameOwnersOk(s, s');
    }
  }

  lemma SameDataSame(s: Disk, s': Disk)
    requires s'.data == s.data
    ensures forall g :: SameMap(s, s', g) && SameView(s, s', g)
    ensures forall g :: IsHome(s', g) <==> IsHome(s, g)
    ensures forall r, b: nat :: Owner(s', r, b) <==> Owner(s, r, b)
  {
    forall g ensures SameMap(s, s', g) && SameView(s, s', g) {
      assert forall r :: At(s', r) == At(s, r);
    }
    SameOwners(s, s');
  }

  // ---------- filling slots ----------

  /** Block n of f, if it had one, would hold struct Files. */
  predicate WouldShow(s: Disk, f: Home, n: nat) { IsDir(s, f) && n < Size(s, f) / BY2BLK && n < NINDIRECT }

  /** The block that fills slot n of directory f has old contents in the cache, and what they
      say there makes block maps of files that do not exist. */
  ghost predicate StaleFill(s: Disk, f: Home, n: nat)
    requires Sized(s)
  {
    var b := AllocBlock(s).1;
    WouldShow(s, f, n) && 0 <= b < |s.data| && b in s.cached && !NoPointers(s.data[b])
  }

  lemma FillGrows(s: Disk, s1: Disk, f: Home, n: nat, b: nat)
    requires FsOk(s) && IsHome(s, f) && Claims(s, s1, b) && IsPtr(s, f) && n < NINDIRECT
    requires At(s, Slot(f, n)) == 0 && (n < NDIRECT || At(s, Indirect(f)) != 0)
    ensures var s' := Store(s1, f, n, b);
      && Grows(s1, s', f) && At(s', Slot(f, n)) == b && At(s', Indirect(f)) == At(s, Indirect(f))
      && (forall k: nat | k != n && k < NINDIRECT :: At(s', Slot(f, k)) == At(s, Slot(f, k)))
      && IsDir(s', f) == IsDir(s, f) && Size(s', f) == Size(s, f) && s'.data[b] == s1.data[b]
  {
    var s' := Store(s1, f, n, b);
    ClaimKeepsOk(s, s1, b);
    FreshBlock(s, s1, b, f);
    assert SameMap(s, s1, f);
    FreeWords(s, s1, f);
    assert Field(s1, f, SIZE_WORD) == Field(s, f, SIZE_WORD) && Field(s1, f, TYPE_WORD) == Field(s, f, TYPE_WORD);
    IndirectNoHome(s1, f, f);
    if At(s, Indirect(f)) != 0 {
      IndirectInUse(s, f);
    }
    StoreOwn(s1, f, n, b);
    forall g | IsHome(s1, g) && g != f ensures SameMap(s1, s', g) && SameView(s1, s', g) {
      StoreOthers(s1, f, n, b, g);
      SameWordsSame(s1, s', g);
    }
  }

  lemma FillGains(s: Disk, f: Home, n: nat)
    requires FsOk(s) && IsHome(s, f) && IsPtr(s, f) && n < NINDIRECT && FillSlot(s, f, n).1 >= 0
    requires At(s, Slot(f, n)) == 0 && (n < NDIRECT || At(s, Indirect(f)) != 0) && !StaleFill(s, f, n)
    ensures var (s', b) := FillSlot(s, f, n);
      && 0 < b && Gains(s, s', Slot(f, n), b) && forall c: nat :: !Owner(s, Slot(f, n), c)
  {
    AllocBlockTakes(s);
    var (s1, b) := AllocBlock(s);
    var s' := Store(s1, f, n, b);
    FillGrows(s, s1, f, n, b);
    ClaimKeepsOk(s, s1, b);
    assert SameMap(s, s1, f);
    FillBarren(s, s1, s', f, n, b);
    GrowsGains(s, s1, s', Slot(f, n), b);
  }

  lemma FillBarren(s: Disk, s1: Disk, s': Disk, f: Home, n: nat, b: nat)
    requires Sized(s) && Takes(s, s1, b) && IsHome(s, f) && SameMap(s, s1, f) && |s'.data| == |s.data|
    requires At(s', Slot(f, n)) == b && s'.data[b] == s1.data[b]
    requires forall k: nat | k != n && k < NINDIRECT :: At(s', Slot(f, k)) == At(s, Slot(f, k))
    requires IsDir(s', f) == IsDir(s, f) == IsDir(s1, f) && Size(s', f) == Size(s, f) == Size(s1, f)
    requires WouldShow(s, f, n) && b in s.cached ==> NoPointers(s.data[b])
    ensures MoreIsBarren(s1, s', f)
  {
    ZeroNoPointers();
    forall m: nat, k: nat | Shows(s', f, m) && !Shows(s1, f, m) && k < FILE2BLK
      ensures Barren(s', ChildAt(s', f, m, k))
    {
      assert m == n;
      NoPointersBarren(s', b);
    }
  }

  // ---------- file_map_block ----------

  /** Slot n of directory f would be filled with a stale block. */
  ghost predicate StaleDir(s: Disk, f: Home, n: nat)
    requires Sized(s) && IsPtr(s, f)
  {
    var (s1, r) := FileBlockWalk(s, f, n, true);
    r == 0 && Sized(s1) && At(s1, Slot(f, n)) == 0 && StaleFill(s1, f, n)
  }

  /** A block with old contents in the cache would become an indirect block that lists blocks,
      or a block of a directory with files that have blocks. */
  ghost predicate Stale(s: Disk, f: Home, n: nat)
    requires Sized(s) && IsPtr(s, f)
  {
    StaleIndex(s, f, n) || StaleDir(s, f, n)
  }

  lemma MapKeepsOk(s: Disk, f: Home, n: nat, alloc: bool)
    requires FsOk(s) && IsHome(s, f) && IsPtr(s, f) && !(alloc && Stale(s, f, n))
    ensures var s' := FileMapBlock(s, f, n, alloc).0;
      FsOk(s') && SameShape(s, s') && (NoLeaks(s) ==> NoLeaks(s'))
  {
    WalkKeepsOk(s, f, n, alloc);
    var (s1, r) := FileBlockWalk(s, f, n, alloc);
    var s' := FileMapBlock(s, f, n, alloc).0;
    if r >= 0 && At(s1, Slot(f, n)) == 0 && alloc {
      AllocBlockTakes(s1);
      var b := FillSlot(s1, f, n).1;
      if b >= 0 {
        FillGains(s1, f, n);
        GainsKeepsOk(s1, s', Slot(f, n), b);
        if NoLeaks(s1) {
          GainsNoLeaks(s1, s', Slot(f, n), b);
        }
      }
    }
  }

  // ---------- what stale blocks do ----------

  /** A place that names a block it has no right to: with no block to spare that belongs to
      nobody, the block is somebody's. */
  lemma JunkBreaks(s: Disk, s': Disk, q: Ref, w: nat)
    requires Sized(s) && NoLeaks(s) && Owner(s', q, w) && !Owner(s, q, w)
    requires forall r, b: nat | Owner(s, r, b) :: Owner(s', r, b)
    requires Sized(s') ==> forall b: nat | InUse(s', b) && !InUse(s, b) :: exists r :: r != q && Owner(s', r, b)
    ensures !FsOk(s')
  {
  }

  /** Blocks in use keep their words, and the walk has given f the indirect block b. */
  lemma StaleWords(s: Disk, s': Disk, f: Home, b: nat)
    requires FsOk(s) && IsHome(s, f) && IsPtr(s, f) && At(s, Indirect(f)) == 0 && |s'.data| == |s.data|
    requires BlockIsFree(s, b) && 0 < b
    requires forall c: nat | c < |s.data| && !BlockIsFree(s, c) ::
      s'.data[c] == SetField(s, f, INDIRECT_WORD, b).data[c]
    ensures Grows(s, s', f) && At(s', Indirect(f)) == b
    ensures forall k: nat | NDIRECT <= k < NINDIRECT :: At(s', Slot(f, k)) == s'.data[b][k]
  {
    HomeInUse(s, f);
    forall i: nat | i < FILE_WORDS && i != INDIRECT_WORD ensures Field(s', f, i) == Field(s, f, i) {
    }
    forall n: nat | n < NDIRECT ensures At(s', Slot(f, n)) == At(s, Slot(f, n)) {
      assert Field(s', f, DIRECT_WORD + n) == Field(s, f, DIRECT_WORD + n);
    }
    assert IsDir(s', f) == IsDir(s, f) && Size(s', f) == Size(s, f);
    forall g | IsHome(s, g) && g != f ensures SameMap(s, s', g) && SameView(s, s', g) {
      StaleOthers(s, s', f, b, g);
      SameWordsSame(s, s', g);
    }
  }

  lemma StaleOthers(s: Disk, s': Disk, f: Home, b: nat, g: Home)
    requires FsOk(s) && IsHome(s, f) && IsPtr(s, f) && |s'.data| == |s.data|
    requires forall c: nat | c < |s.data| && !BlockIsFree(s, c) ::
      s'.data[c] == SetField(s, f, INDIRECT_WORD, b).data[c]
    requires IsHome(s, g) && g != f
    ensures SameWords(s, s', g)
  {
    SetFieldOthers(s, f, INDIRECT_WORD, b, g);
    HomeInUse(s, g);
    if At(s, Indirect(g)) != 0 {
      IndirectInUse(s, g);
    }
  }

  lemma WalkMakes(s: Disk, f: Home, n: nat)
    requires Sized(s) && IsPtr(s, f) && MakesIndirect(s, f, n)
    ensures IsPtr(AllocBlock(s).0, f)
    ensures var (s2, r) := FileBlockWalk(s, f, n, true); var (s1, b) := AllocBlock(s);
      r == 0 && s2.bitmap == s1.bitmap && s2.data == SetField(s1, f, INDIRECT_WORD, b).data
  {
  }

  /** The walk makes b the indirect block of f, words and all. */
  lemma StaleIndexWalk(s: Disk, f: Home, n: nat)
    requires FsOk(s) && IsHome(s, f) && IsPtr(s, f) && StaleIndex(s, f, n)
    ensures var (s2, r) := FileBlockWalk(s, f, n, true); var b := AllocBlock(s).1;
      && r == 0 && 3 <= b < |s.data| && BlockIsFree(s, b) && !BlockIsFree(s, f.b) && b != f.b
      && Sized(s2) && SameShape(s, s2) && s2.data == SetField(s, f, INDIRECT_WORD, b).data
      && (forall c: nat | c < |s.data| :: BlockIsFree(s2, c) <==> BlockIsFree(s, c) && c != b)
  {
    AllocBlockTakes(s);
    HomeInUse(s, f);
    WalkMakes(s, f, n);
    assert AllocBlock(s).0.data == s.data;
    SameBits(AllocBlock(s).0, FileBlockWalk(s, f, n, true).0);
  }

  lemma SameBits(s: Disk, s': Disk)
    requires Sized(s) && s'.bitmap == s.bitmap && |s'.data| == |s.data|
    ensures Sized(s') && forall c: nat :: BlockIsFree(s', c) == BlockIsFree(s, c)
  {
  }

  /** What file_map_block makes of a stale indirect block: it takes b, which then is f's indirect
      block with its old words, and perhaps one more block, which is then at slot n. */
  lemma StaleIndexMap(s: Disk, f: Home, n: nat)
    requires FsOk(s) && IsHome(s, f) && IsPtr(s, f) && StaleIndex(s, f, n)
    ensures var s', b := FileMapBlock(s, f, n, true).0, AllocBlock(s).1;
      && Grows(s, s', f) && SameShape(s, s') && BlockIsFree(s, b) && At(s', Indirect(f)) == b
      && (forall k: nat | NDIRECT <= k < NINDIRECT && (k != n || s.data[b][n] != 0) ::
            At(s', Slot(f, k)) == s.data[b][k])
      && (forall c: nat | c < |s.data| && BlockIsFree(s, c) && !BlockIsFree(s', c) ::
            c == b || (s.data[b][n] == 0 && At(s', Slot(f, n)) == c))
  {
    var s', b := FileMapBlock(s, f, n, true).0, AllocBlock(s).1;
    var s2 := FileBlockWalk(s, f, n, true).0;
    StaleIndexWalk(s, f, n);
    assert s2.data[b] == s.data[b];
    StaleWords(s, s2, f, b);
    StaleFillMap(s, s2, f, n, b);
    StaleWords(s, s', f, b);
  }

  lemma StaleFillMap(s: Disk, s2: Disk, f: Home, n: nat, b: nat)
    requires FsOk(s) && IsPtr(s, f) && !BlockIsFree(s, f.b) && Sized(s2) && SameShape(s, s2)
    requires BlockIsFree(s, b) && 3 <= b
    requires NDIRECT <= n < NINDIRECT && At(s2, Indirect(f)) == b && At(s2, Slot(f, n)) == s2.data[b][n]
    requires forall c: nat | c < |s.data| :: BlockIsFree(s2, c) <==> BlockIsFree(s, c) && c != b
    ensures var s' := if At(s2, Slot(f, n)) != 0 then s2 else FillSlot(s2, f, n).0;
      && SameShape(s, s') && Sized(s')
      && (forall c: nat | c < |s.data| && !BlockIsFree(s, c) :: s'.data[c] == s2.data[c])
      && (forall k: nat | k < NINDIRECT && (k != n || s2.data[b][n] != 0) :: s'.data[b][k] == s2.data[b][k])
      && (forall c: nat | c < |s.data| && BlockIsFree(s, c) && !BlockIsFree(s', c) ::
            c == b || (s2.data[b][n] == 0 && s'.data[b][n] == c))
  {
    if At(s2, Slot(f, n)) == 0 {
      assert MetaInUse(s2);
      AllocBlockTakes(s2);
    }
  }

  /** The blocks that have been taken belong to f. */
  lemma StaleTaken(s: Disk, s': Disk, f: Home, n: nat, b: nat, k: nat)
    requires Sized(s) && Sized(s') && SameShape(s, s') && IsHome(s', f) && n < NINDIRECT && k < NINDIRECT
    requires At(s', Indirect(f)) == b && b < |s.data| && s.data[b][k] != 0
    requires forall c: nat | c < |s.data| && BlockIsFree(s, c) && !BlockIsFree(s', c) ::
      c == b || (s.data[b][n] == 0 && At(s', Slot(f, n)) == c)
    ensures forall c: nat | InUse(s', c) && !InUse(s, c) :: exists r :: r != Slot(f, k) && Owner(s', r, c)
  {
    forall c: nat | InUse(s', c) && !InUse(s, c) ensures exists r :: r != Slot(f, k) && Owner(s', r, c) {
      if c == b {
        assert Owner(s', Indirect(f), c);
      } else {
        assert Owner(s', Slot(f, n), c);
      }
    }
  }

  lemma StaleIndexBreaks(s: Disk, f: Home, n: nat)
    requires FsOk(s) && NoLeaks(s) && IsHome(s, f) && IsPtr(s, f) && StaleIndex(s, f, n)
    ensures !FsOk(FileMapBlock(s, f, n, true).0)
  {
    var s', b := FileMapBlock(s, f, n, true).0, AllocBlock(s).1;
    StaleIndexMap(s, f, n);
    GrowsKeepsOwners(s, s', f);
    var k: nat :| NDIRECT <= k < NINDIRECT && s.data[b][k] != 0;
    assert Owner(s', Slot(f, k), s.data[b][k]);
    if Sized(s') {
      StaleTaken(s, s', f, n, b, k);
    }
    JunkBreaks(s, s', Slot(f, k), s.data[b][k]);
  }

  lemma StaleFillBreaks(s: Disk, f: Home, n: nat)
    requires FsOk(s) && NoLeaks(s) && IsHome(s, f) && IsPtr(s, f) && n < NINDIRECT && StaleFill(s, f, n)
    requires At(s, Slot(f, n)) == 0 && (n < NDIRECT || At(s, Indirect(f)) != 0)
    ensures !FsOk(FillSlot(s, f, n).0)
  {
    AllocBlockTakes(s);
    var (s1, b) := AllocBlock(s);
    var s' := FillSlot(s, f, n).0;
    FillGrows(s, s1, f, n, b);
    ClaimKeepsOk(s, s1, b);
    GrowsKeepsOwners(s1, s', f);
    NoPointersBarren(s', b);
    var k: nat :| k < FILE2BLK && !Barren(s', Home(b, FILE_WORDS * k));
    ChildIsHome(s', f, n, k);
    var q := APointer(s', Home(b, FILE_WORDS * k));
    NoHomeIn(s, b, q.f);
    assert Owner(s', Slot(f, n), b);
    assert forall r, c: nat | Owner(s, r, c) :: Owner(s1, r, c);
    FreshBlock(s, s1, b, f);
    JunkBreaks(s, s', q, At(s', q));
  }

  lemma APointer(s: Disk, f: Home) returns (q: Ref)
    requires IsHome(s, f) && !Barren(s, f)
    ensures q.f == f && Owner(s, q, At(s, q))
  {
    if At(s, Indirect(f)) != 0 {
      q := Indirect(f);
    } else {
      var n: nat :| n < NINDIRECT && At(s, Slot(f, n)) != 0;
      q := Slot(f, n);
    }
  }

  lemma NoHomeIn(s: Disk, b: nat, h: Home)
    requires FsOk(s) && BlockIsFree(s, b) && h.b == b
    ensures !IsHome(s, h)
  {
    if IsHome(s, h) {
      HomePlace(s, h);
    }
  }

  /** The words that were left in a block when it was freed pass for block numbers once it is
      made an indirect block, or the block of a directory: whatever they name does not belong
      there. */
  lemma StaleBreaks(s: Disk, f: Home, n: nat)
    requires FsOk(s) && NoLeaks(s) && IsHome(s, f) && IsPtr(s, f) && Stale(s, f, n)
    ensures !FsOk(FileMapBlock(s, f, n, true).0)
  {
    if StaleIndex(s, f, n) {
      StaleIndexBreaks(s, f, n);
    } else {
      WalkKeepsOk(s, f, n, true);
      StaleFillBreaks(FileBlockWalk(s, f, n, true).0, f, n);
    }
  }

  /** Four blocks, of which the last is free, with a word from before in the cache; an empty root. */
  function StaleDisk(k: nat, w: nat): (s: Disk)
    requires NDIRECT <= k < NINDIRECT
    ensures Sized(s) && forall b: nat :: BlockIsFree(s, b) <==> b == 3
  {
    var bits: BitWord := seq(BITS, i => i == 3);
    Disk([bits], [ZeroWords(), ZeroWords(), ZeroWords(), ZeroWords()[k := w]], {3}, 0)
  }

  /** There are file systems in order on which that happens. */
  lemma StaleHappens(k: nat, w: nat)
    requires NDIRECT <= k < NINDIRECT && w != 0
    ensures var s := StaleDisk(k, w);
      && FsOk(s) && NoLeaks(s) && IsHome(s, ROOT) && Stale(s, ROOT, NDIRECT)
      && !FsOk(FileMapBlock(s, ROOT, NDIRECT, true).0)
  {
    var s := StaleDisk(k, w);
    assert forall i: nat | i < FILE_WORDS :: Field(s, ROOT, i) == 0;
    forall f | IsHome(s, f) ensures f == ROOT {
      var path :| Follow(s, path) == Some(f);
      LoneRoot(s, path);
    }
    RootIsHome(s);
    assert forall r, b: nat :: !Owner(s, r, b);
    assert FirstFree(s, 3) == 3;
    assert s.data[3][k] != 0;
    StaleBreaks(s, ROOT, NDIRECT);
  }

  /** file_map_block keeps a file system without leaks in order exactly when it does not turn
      a block with old contents in the cache into an indirect block or a directory's. */
  lemma MapKeepsOkExactly(s: Disk, f: Home, n: nat, alloc: bool)
    requires FsOk(s) && NoLeaks(s) && IsHome(s, f)
    ensures IsPtr(s, f)
    ensures FsOk(FileMapBlock(s, f, n, alloc).0) <==> !(alloc && Stale(s, f, n))
  {
    HomePlace(s, f);
    if alloc && Stale(s, f, n) {
      StaleBreaks(s, f, n);
    } else {
      MapKeepsOk(s, f, n, alloc);
    }
  }

  // ---------- what file_map_block returns ----------

  lemma WalkResult(s: Disk, f: Home, n: nat, alloc: bool)
    requires FsOk(s) && IsHome(s, f) && !(alloc && StaleIndex(s, f, n))
    ensures IsPtr(s, f)
    ensures var (s1, r) := FileBlockWalk(s, f, n, alloc);
      && (r == -E_INVAL <==> n >= NINDIRECT)
      && (r == -E_NOT_FOUND <==> NDIRECT <= n < NINDIRECT && At(s, Indirect(f)) == 0 && !alloc)
      && (r == 0 || r in {-E_INVAL, -E_NOT_FOUND, -E_NO_DISK, -E_NO_MEM})
      && (forall g | IsHome(s, g) && g != f :: IsHome(s1, g) && SameMap(s, s1, g))
      && (At(s, Indirect(f)) != 0 || r < 0 ==> At(s1, Indirect(f)) == At(s, Indirect(f)))
      && (Sized(s1) ==> forall b: nat | b < |s.data| && BlockIsFree(s1, b) :: BlockIsFree(s, b))
  {
    HomePlace(s, f);
    AllocBlockTakes(s);
    if alloc && MakesIndirect(s, f, n) {
      WalkGains(s, f, n);
    } else {
      SameDataSame(s, FileBlockWalk(s, f, n, alloc).0);
    }
  }

  lemma FillResult(s: Disk, f: Home, n: nat)
    requires FsOk(s) && IsHome(s, f) && n < NINDIRECT && At(s, Slot(f, n)) == 0
    requires n < NDIRECT || At(s, Indirect(f)) != 0
    ensures IsPtr(s, f)
    ensures var (s', b) := FillSlot(s, f, n);
      && SameShape(s, s') && (b < 0 ==> s' == s && b in {-E_NO_DISK, -E_NO_MEM})
      && (b >= 0 ==> 0 < b < |s.data| && BlockIsFree(s, b) && At(s', Slot(f, n)) == b)
      && (forall g | IsHome(s, g) && g != f :: SameMap(s, s', g))
      && (forall k: nat | k != n && k < NINDIRECT :: At(s', Slot(f, k)) == At(s, Slot(f, k)))
      && At(s', Indirect(f)) == At(s, Indirect(f))
  {
    HomePlace(s, f);
    AllocBlockTakes(s);
    var (s1, b) := AllocBlock(s);
    if b >= 0 {
      FillGrows(s, s1, f, n, b);
      ClaimKeepsOk(s, s1, b);
      var s' := Store(s1, f, n, b);
      forall g | IsHome(s, g) && g != f ensures SameMap(s, s', g) {
        assert SameMap(s, s1, g) && SameMap(s1, s', g);
      }
    }
  }

  /** The result of file_map_block. */
  ghost predicate MapReturns(s: Disk, s': Disk, r: int, f: Home, n: nat, alloc: bool)
    requires Sized(s)
  {
    && (r == -E_INVAL <==> n >= NINDIRECT)
    && (r == -E_NOT_FOUND <==> n < NINDIRECT && At(s, Slot(f, n)) == 0 && !alloc)
    && (r < 0 ==> r in {-E_INVAL, -E_NOT_FOUND, -E_NO_DISK, -E_NO_MEM})
    && (r >= 0 ==> n < NINDIRECT && r > 0 && At(s', Slot(f, n)) == r)
    && (r >= 0 && At(s, Slot(f, n)) == 0 ==> BlockIsFree(s, r))
    && (n < NINDIRECT && At(s, Slot(f, n)) != 0 ==> r == At(s, Slot(f, n)))
  }

  /** All block maps are the same, but for slot n of f and perhaps a new indirect block of f. */
  ghost predicate MapsElsewhere(s: Disk, s': Disk, f: Home, n: nat) {
    && (forall g | IsHome(s, g) && g != f :: SameMap(s, s', g))
    && (forall k: nat | k != n && k < NINDIRECT :: At(s', Slot(f, k)) == At(s, Slot(f, k)))
    && (At(s, Indirect(f)) != 0 ==> At(s', Indirect(f)) == At(s, Indirect(f)))
  }

  lemma MapsTwice(s: Disk, s1: Disk, s': Disk, f: Home, n: nat)
    requires SameFile(s, s1, f) && (At(s, Indirect(f)) != 0 ==> At(s1, Indirect(f)) == At(s, Indirect(f)))
    requires forall g | IsHome(s, g) && g != f :: IsHome(s1, g) && SameMap(s, s1, g)
    requires MapsElsewhere(s1, s', f, n)
    ensures MapsElsewhere(s, s', f, n)
  {
    forall g | IsHome(s, g) && g != f ensures SameMap(s, s', g) {
      assert SameMap(s, s1, g) && SameMap(s1, s', g);
    }
  }

  lemma MapReturn(s: Disk, f: Home, n: nat, alloc: bool)
    requires FsOk(s) && IsHome(s, f) && !(alloc && StaleIndex(s, f, n))
    ensures IsPtr(s, f)
    ensures MapReturns(s, FileMapBlock(s, f, n, alloc).0, FileMapBlock(s, f, n, alloc).1, f, n, alloc)
  {
    WalkKeepsOk(s, f, n, alloc);
    WalkResult(s, f, n, alloc);
    var (s1, r) := FileBlockWalk(s, f, n, alloc);
    if r >= 0 && At(s1, Slot(f, n)) == 0 && alloc {
      FillResult(s1, f, n);
    }
  }

  /** file_map_block finds the block that is there, or gives the slot one that was free; the
      errors are the four it documents; no other slot of any file changes. */
  lemma MapResult(s: Disk, f: Home, n: nat, alloc: bool)
    requires FsOk(s) && IsHome(s, f) && !(alloc && StaleIndex(s, f, n))
    ensures IsPtr(s, f)
    ensures var (s', r) := FileMapBlock(s, f, n, alloc);
      MapReturns(s, s', r, f, n, alloc) && MapsElsewhere(s, s', f, n)
  {
    MapReturn(s, f, n, alloc);
    WalkKeepsOk(s, f, n, alloc);
    WalkResult(s, f, n, alloc);
    var (s1, r) := FileBlockWalk(s, f, n, alloc);
    if r >= 0 && At(s1, Slot(f, n)) == 0 && alloc {
      FillResult(s1, f, n);
      MapsTwice(s, s1, FillSlot(s1, f, n).0, f, n);
    }
  }

  lemma FillKeepsFile(s: Disk, f: Home, n: nat)
    requires FsOk(s) && IsHome(s, f) && n < NINDIRECT && At(s, Slot(f, n)) == 0
    requires n < NDIRECT || At(s, Indirect(f)) != 0
    ensures IsPtr(s, f)
    ensures var s' := FillSlot(s, f, n).0; IsHome(s', f) && Size(s', f) == Size(s, f) && IsDir(s', f) == IsDir(s, f)
  {
    HomePlace(s, f);
    AllocBlockTakes(s);
    var (s1, b) := AllocBlock(s);
    if b >= 0 {
      FillGrows(s, s1, f, n, b);
      ClaimKeepsOk(s, s1, b);
      GrowsKeepsOwners(s1, Store(s1, f, n, b), f);
    }
  }

  /** Mapping a block of f leaves f where it is, with the size and kind that it had. */
  lemma MapKeepsFile(s: Disk, f: Home, n: nat, alloc: bool)
    requires FsOk(s) && IsHome(s, f) && !(alloc && StaleIndex(s, f, n))
    ensures IsPtr(s, f)
    ensures var s' := FileMapBlock(s, f, n, alloc).0;
      IsHome(s', f) && Size(s', f) == Size(s, f) && IsDir(s', f) == IsDir(s, f)
  {
    WalkKeepsOk(s, f, n, alloc);
    var (s1, r) := FileBlockWalk(s, f, n, alloc);
    if r >= 0 && At(s1, Slot(f, n)) == 0 && alloc {
      FillKeepsFile(s1, f, n);
    }
  }
}
