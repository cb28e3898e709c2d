/** The image builder (tools/fsformat.c), and what the file server finds in its images. */
module ImageBuilder {
  import opened Mmu
  import opened Bitmaps
  import opened FileTree
  import opened FileBlocks
  import opened BlockMaps
  import opened Directories

  const NBLOCK: nat := 1024
  const FS_MAGIC: nat := 0x68286097

  /** disk[] with the superblock in its place from the start, nextbno, and the directories that
      have been made. */
  datatype Image = Image(blocks: seq<Words>, next: nat, dirs: set<Home>)

  // ---------- the bitmap ----------

  /** memset of the bytes [lo, hi) to all ones or all zeros. */
  function Memset(words: seq<BitWord>, lo: nat, hi: nat, ones: bool): (r: seq<BitWord>)
    ensures |r| == |words|
    ensures forall n: nat | n / BITS < |words| :: Has(r, n) == if lo <= n / 8 < hi then ones else Has(words, n)
  {
    var r := seq(|words|, w requires 0 <= w < |words| => MemsetWord(words[w], w, lo, hi, ones));
    assert forall n: nat | n / BITS < |words| :: (n / BITS * BITS + n % BITS) / 8 == n / 8;
    r
  }

  function MemsetWord(word: BitWord, w: nat, lo: nat, hi: nat, ones: bool): (r: BitWord)
    ensures forall i: nat | i < BITS :: r[i] == if lo <= (w * BITS + i) / 8 < hi then ones else word[i]
  {
    seq(BITS, i => if lo <= (w * BITS + i) / 8 < hi then ones else 0 <= i < BITS && word[i])
  }

  function BitmapBlocks(nblock: nat): nat { (nblock + BIT2BLK - 1) / BIT2BLK }

  /** The byte from which init_disk clears the last bitmap block again. */
  function TailByte(nblock: nat): nat
    requires nblock > 0
  {
    (BitmapBlocks(nblock) - 1) * BY2BLK + nblock % BIT2BLK / 8
  }

  /** The bitmap blocks as init_disk leaves them for a disk of nblock blocks. */
  function InitBitmap(nblock: nat): (r: seq<BitWord>)
    requires nblock > 0
    ensures |r| == BitmapBlocks(nblock) * (BIT2BLK / BITS)
  {
    var zeros := seq(BitmapBlocks(nblock) * (BIT2BLK / BITS), _ => Zeros());
    var all := Memset(zeros, 0, BitmapBlocks(nblock) * BY2BLK, true);
    if nblock == BitmapBlocks(nblock) * BIT2BLK then all
    else Memset(all, TailByte(nblock), BitmapBlocks(nblock) * BY2BLK, false)
  }

  lemma TailByteIs(nblock: nat)
    requires nblock > 0 && nblock != BitmapBlocks(nblock) * BIT2BLK
    ensures TailByte(nblock) == nblock / 8
  {
    var q, r := nblock / BIT2BLK, nblock % BIT2BLK;
    assert nblock == q * BIT2BLK + r;
    assert r > 0 && BitmapBlocks(nblock) == q + 1;
  }

  /** Every block of the disk, and no other number, starts out free. */
  lemma InitBitmapBits(nblock: nat, n: nat)
    requires nblock > 0 && nblock % 8 == 0 && n < BitmapBlocks(nblock) * BIT2BLK
    ensures n / BITS < |InitBitmap(nblock)|
    ensures Has(InitBitmap(nblock), n) <==> n < nblock
  {
    assert n / 8 < BitmapBlocks(nblock) * BY2BLK && n / BITS < BitmapBlocks(nblock) * (BIT2BLK / BITS);
    if nblock != BitmapBlocks(nblock) * BIT2BLK {
      TailByteIs(nblock);
      assert nblock / 8 <= n / 8 <==> nblock <= n;
    }
  }

  /** flush_bitmap from block i on. */
  function FlushFrom(bitmap: seq<BitWord>, i: nat, next: nat): (r: seq<BitWord>)
    requires next <= |bitmap| * BITS
    ensures |r| == |bitmap|
    ensures forall n: nat | n < |bitmap| * BITS :: Has(r, n) <==> Has(bitmap, n) && !(i <= n < next)
    decreases next - i, bitmap
  {
    if i >= next then bitmap
    else
      assert forall n: nat | n < |bitmap| * BITS :: Has(ClearBit(bitmap, i), n) <==> n != i && Has(bitmap, n) by {
        forall n: nat | n < |bitmap| * BITS ensures Has(ClearBit(bitmap, i), n) <==> n != i && Has(bitmap, n) {
          ClearBitMembers(bitmap, i, n);
        }
      }
      FlushFrom(ClearBit(bitmap, i), i + 1, next)
  }

  // ---------- words and blocks ----------

  /** A file name as the 32 words of f_name, not empty. */
  type Name = s: seq<nat> | |s| == SIZE_WORD && s[0] % 256 != 0 witness seq(SIZE_WORD, _ => 47)

  predicate Proper(img: Image) { |img.blocks| == NBLOCK && img.next <= NBLOCK }

  predicate InImage(f: Home) { f.b < NBLOCK && f.w + FILE_WORDS <= NINDIRECT }

  /** The superblock: its first two words, and the root directory with the name "/". */
  function SuperBlock(): (r: Words)
    ensures r[0] == FS_MAGIC && r[1] == NBLOCK && r[ROOT.w] == 47 && r[ROOT.w + TYPE_WORD] == FTYPE_DIR
    ensures forall w: nat | 2 < w < NINDIRECT && w != ROOT.w + TYPE_WORD :: r[w] == 0
  {
    ZeroWords()[0 := FS_MAGIC][1 := NBLOCK][ROOT.w := 47][ROOT.w + TYPE_WORD := FTYPE_DIR]
  }

  function InitImage(): (r: Image)
    ensures Proper(r)
  {
    Image(seq(NBLOCK, _ => ZeroWords())[ROOT.b := SuperBlock()], 2 + BitmapBlocks(NBLOCK), {ROOT})
  }

  /** The image once the bitmap has been flushed, before the server has read any block. */
  function Served(img: Image, pages: nat): Disk
    requires img.next <= NBLOCK
  {
    Disk(FlushFrom(InitBitmap(NBLOCK), 0, img.next), img.blocks, {}, pages)
  }

  function Now(img: Image): Disk
    requires Proper(img)
  {
    Served(img, 0)
  }

  function PutWord(img: Image, b: nat, w: nat, v: nat): (r: Image)
    requires Proper(img) && b < NBLOCK && w < NINDIRECT
    ensures Proper(r)
  {
    img.(blocks := img.blocks[b := img.blocks[b][w := v]])
  }

  /** save_block_link; None where its assertion fails or the disk is full. */
  function SaveBlockLink(img: Image, f: Home, n: nat, bno: nat): (r: Option<Image>)
    requires Proper(img) && InImage(f)
    ensures r.Some? ==> Proper(r.value)
  {
    if n >= NINDIRECT then None
    else if n < NDIRECT then Some(PutWord(img, f.b, f.w + (DIRECT_WORD + n), bno))
    else if Field(Now(img), f, INDIRECT_WORD) == 0 then
      if img.next >= NBLOCK then None
      else
        var made := PutWord(img.(next := img.next + 1), f.b, f.w + INDIRECT_WORD, img.next);
        Some(PutWord(made, img.next, n, bno))
    else if Field(Now(img), f, INDIRECT_WORD) >= NBLOCK then None
    else Some(PutWord(img, Field(Now(img), f, INDIRECT_WORD), n, bno))
  }

  /** The next block becomes block n of file f. */
  function LinkNext(img: Image, f: Home, n: nat): (r: Option<Image>)
    requires Proper(img) && InImage(f)
    ensures r.Some? ==> Proper(r.value)
  {
    if img.next >= NBLOCK then None else SaveBlockLink(img.(next := img.next + 1), f, n, img.next)
  }

  /** And before that, it is filled with what has been read. */
  function AddBlock(img: Image, f: Home, n: nat, words: Words): (r: Option<Image>)
    requires Proper(img) && InImage(f)
    ensures r.Some? ==> Proper(r.value)
  {
    if img.next >= NBLOCK then None else LinkNext(img.(blocks := img.blocks[img.next := words]), f, n)
  }

  // ---------- between two operations of the builder ----------

  predicate Blank(img: Image) {
    forall b: nat | img.next <= b < |img.blocks| :: img.blocks[b] == ZeroWords()
  }

  ghost predicate Ready(img: Image) {
    Proper(img) && 3 <= img.next && Blank(img) && FsOk(Now(img)) && NoLeaks(Now(img))
  }

  lemma ServedBits(img: Image, pages: nat, b: nat)
    requires Proper(img)
    ensures Sized(Served(img, pages)) && (BlockIsFree(Served(img, pages), b) <==> img.next <= b < NBLOCK)
  {
    if b < NBLOCK {
      InitBitmapBits(NBLOCK, b);
    }
  }

  lemma Bits(img: Image)
    requires Proper(img)
    ensures Sized(Now(img)) && Meta(Now(img)) == 3
    ensures forall b: nat :: BlockIsFree(Now(img), b) <==> img.next <= b < NBLOCK
  {
    forall b: nat ensures Sized(Now(img)) && (BlockIsFree(Now(img), b) <==> img.next <= b < NBLOCK) {
      ServedBits(img, 0, b);
    }
  }

  /** A file's own words, its indirect block and its blocks lie before nextbno. */
  lemma InUseBefore(img: Image, f: Home)
    requires Ready(img) && IsHome(Now(img), f)
    ensures InImage(f) && f.b < img.next && At(Now(img), Indirect(f)) < img.next
    ensures forall n: nat | n < NINDIRECT :: At(Now(img), Slot(f, n)) < img.next
  {
    Bits(img);
    HomePlace(Now(img), f);
    if At(Now(img), Indirect(f)) != 0 {
      IndirectInUse(Now(img), f);
    }
    forall n: nat | n < NINDIRECT ensures At(Now(img), Slot(f, n)) < img.next {
      if At(Now(img), Slot(f, n)) != 0 {
        assert Owner(Now(img), Slot(f, n), At(Now(img), Slot(f, n)));
      }
    }
  }

  // ---------- linking a block ----------

  /** f is as it was, but for one block more at slot n. */
  ghost predicate OneMore(s: Disk, s': Disk, f: Home, n: nat, b: nat) {
    && FsOk(s') && NoLeaks(s') && (forall g :: IsHome(s', g) <==> IsHome(s, g))
    && At(s', Slot(f, n)) == b && Size(s', f) == Size(s, f) && IsDir(s', f) == IsDir(s, f)
    && (forall k: nat | k != n && k < NINDIRECT :: At(s', Slot(f, k)) == At(s, Slot(f, k)))
  }

  lemma LinksOne(s: Disk, s1: Disk, s': Disk, f: Home, n: nat, b: nat)
    requires FsOk(s) && NoLeaks(s) && IsHome(s, f) && n < NINDIRECT && At(s, Slot(f, n)) == 0
    requires (n < NDIRECT || At(s, Indirect(f)) != 0) && !WouldShow(s, f, n)
    requires Claims(s, s1, b) && IsPtr(s1, f) && s' == Store(s1, f, n, b)
    ensures OneMore(s, s', f, n, b)
  {
    HomePlace(s, f);
    FillGrows(s, s1, f, n, b);
    ClaimKeepsOk(s, s1, b);
    assert SameMap(s, s1, f);
    FreeWords(s, s1, f);
    assert Field(s1, f, SIZE_WORD) == Field(s, f, SIZE_WORD) && Field(s1, f, TYPE_WORD) == Field(s, f, TYPE_WORD);
    assert SameView(s1, s', f);
    SameTree(s1, s');
    GrowsGains(s, s1, s', Slot(f, n), b);
    GainsKeepsOk(s, s', Slot(f, n), b);
    GainsNoLeaks(s, s', Slot(f, n), b);
  }

  /** f is as it was, but for an indirect block. */
  ghost predicate OneIndex(s: Disk, s': Disk, f: Home, b: nat) {
    && FsOk(s') && NoLeaks(s') && (forall g :: IsHome(s', g) <==> IsHome(s, g))
    && At(s', Indirect(f)) == b && Size(s', f) == Size(s, f) && IsDir(s', f) == IsDir(s, f)
    && (forall k: nat | k < NINDIRECT :: At(s', Slot(f, k)) == At(s, Slot(f, k)))
  }

  lemma IndexesOne(s: Disk, s1: Disk, s': Disk, f: Home, b: nat)
    requires FsOk(s) && NoLeaks(s) && IsHome(s, f) && At(s, Indirect(f)) == 0
    requires Claims(s, s1, b) && IsPtr(s1, f) && s' == SetField(s1, f, INDIRECT_WORD, b)
    requires b < |s1.data| && s1.data[b] == ZeroWords()
    ensures OneIndex(s, s', f, b)
  {
    ClaimKeepsOk(s, s1, b);
    FreshBlock(s, s1, b, f);
    assert SameMap(s, s1, f);
    FreeWords(s, s1, f);
    assert Field(s1, f, SIZE_WORD) == Field(s, f, SIZE_WORD) && Field(s1, f, TYPE_WORD) == Field(s, f, TYPE_WORD);
    NewIndex(s1, s', f, b);
    assert SameView(s1, s', f);
    SameTree(s1, s');
    GrowsGains(s, s1, s', Indirect(f), b);
    GainsKeepsOk(s, s', Indirect(f), b);
    GainsNoLeaks(s, s', Indirect(f), b);
  }

  lemma LinkOld(img: Image, f: Home, n: nat, words: Words)
    requires Ready(img) && IsHome(Now(img), f) && n < NINDIRECT && At(Now(img), Slot(f, n)) == 0
    requires (n < NDIRECT || At(Now(img), Indirect(f)) != 0) && !WouldShow(Now(img), f, n) && img.next < NBLOCK
    ensures InImage(f)
    ensures var r := AddBlock(img, f, n, words);
      r.Some? && r.value.next == img.next + 1 && OneMore(Now(img), Now(r.value), f, n, img.next)
  {
    InUseBefore(img, f);
    var s, img' := Now(img), AddBlock(img, f, n, words).value;
    var s' := Now(img');
    var s1 := Disk(s'.bitmap, img.blocks[img.next := words], {}, 0);
    Bits(img);
    Bits(img');
    assert Claims(s, s1, img.next);
    assert Field(s1, f, INDIRECT_WORD) == Field(s, f, INDIRECT_WORD);
    assert s' == Store(s1, f, n, img.next);
    LinksOne(s, s1, s', f, n, img.next);
  }

  /** The file system half way through linking a block that needs a new indirect block. */
  function WithIndex(img: Image, f: Home): Disk
    requires Proper(img) && img.next + 2 <= NBLOCK && InImage(f)
  {
    var s := Now(img);
    SetField(s.(bitmap := ClearBit(s.bitmap, img.next + 1)), f, INDIRECT_WORD, img.next + 1)
  }

  lemma IndexClaims(img: Image)
    requires Ready(img) && img.next + 2 <= NBLOCK
    ensures var s := Now(img); Claims(s, s.(bitmap := ClearBit(s.bitmap, img.next + 1)), img.next + 1)
  {
    Bits(img);
    var s := Now(img);
    var s1 := s.(bitmap := ClearBit(s.bitmap, img.next + 1));
    forall b: nat | b < NBLOCK ensures Has(s1.bitmap, b) <==> Has(s.bitmap, b) && b != img.next + 1 {
      ClearBitMembers(s.bitmap, img.next + 1, b);
    }
  }

  lemma IndexFirst(img: Image, f: Home)
    requires Ready(img) && IsHome(Now(img), f) && img.next + 2 <= NBLOCK && At(Now(img), Indirect(f)) == 0
    ensures InImage(f) && OneIndex(Now(img), WithIndex(img, f), f, img.next + 1)
    ensures forall b: nat :: BlockIsFree(WithIndex(img, f), b) <==> img.next <= b < NBLOCK && b != img.next + 1
  {
    InUseBefore(img, f);
    IndexClaims(img);
    var s := Now(img);
    var s1 := s.(bitmap := ClearBit(s.bitmap, img.next + 1));
    IndexesOne(s, s1, WithIndex(img, f), f, img.next + 1);
    Bits(img);
    assert forall b: nat :: BlockIsFree(WithIndex(img, f), b) == BlockIsFree(s1, b);
  }

  lemma LinkNew(img: Image, f: Home, n: nat, words: Words)
    requires Ready(img) && IsHome(Now(img), f) && NDIRECT <= n < NINDIRECT && At(Now(img), Indirect(f)) == 0
    requires !WouldShow(Now(img), f, n) && img.next + 2 <= NBLOCK
    ensures InImage(f)
    ensures var r := AddBlock(img, f, n, words);
      r.Some? && r.value.next == img.next + 2 && OneMore(Now(img), Now(r.value), f, n, img.next)
  {
    InUseBefore(img, f);
    IndexFirst(img, f);
    var mid, img' := WithIndex(img, f), AddBlock(img, f, n, words).value;
    var s' := Now(img');
    var s2 := Disk(s'.bitmap, mid.data[img.next := words], {}, 0);
    Bits(img');
    assert Claims(mid, s2, img.next);
    assert Field(s2, f, INDIRECT_WORD) == img.next + 1;
    assert s'.data == Store(s2, f, n, img.next).data;
    LinksOne(mid, s2, s', f, n, img.next);
  }

  /** Of what was in use, only block numbers of f, in its struct File or its indirect block, have
      changed. */
  ghost predicate TouchesOnly(img: Image, img': Image, f: Home) {
    && Proper(img) && Proper(img') && img'.next >= img.next && InImage(f)
    && (forall b: nat | b < img.next && b != f.b && (b == 0 || b != At(Now(img), Indirect(f))) ::
          img'.blocks[b] == img.blocks[b])
    && (forall w: nat | w < NINDIRECT && !(f.w + DIRECT_WORD <= w <= f.w + INDIRECT_WORD) ::
          img'.blocks[f.b][w] == img.blocks[f.b][w])
  }

  lemma AddTouches(img: Image, f: Home, n: nat, words: Words)
    requires Proper(img) && InImage(f) && f.b < img.next && At(Now(img), Indirect(f)) < img.next
    requires At(Now(img), Indirect(f)) != f.b
    ensures var r := AddBlock(img, f, n, words);
      r.Some? ==> (
        && TouchesOnly(img, r.value, f) && r.value.dirs == img.dirs
        && img.next < NBLOCK && r.value.blocks[img.next] == words
        && (Blank(img) ==> Blank(r.value)))
  {
    if img.next < NBLOCK {
      var img1 := img.(blocks := img.blocks[img.next := words], next := img.next + 1);
      assert Field(Now(img1), f, INDIRECT_WORD) == Field(Now(img), f, INDIRECT_WORD);
    }
  }

  /** Words, the block that was the next one, is block n of f, and nothing else has happened. */
  ghost predicate Linked(img: Image, img': Image, f: Home, n: nat, words: Words) {
    && Ready(img) && Ready(img') && TouchesOnly(img, img', f) && img'.dirs == img.dirs && n < NINDIRECT
    && OneMore(Now(img), Now(img'), f, n, img.next) && img.next < NBLOCK && img'.blocks[img.next] == words
  }

  /** Linking a block keeps the image in order and everything else in its place. */
  lemma AddBlockLinks(img: Image, f: Home, n: nat, words: Words)
    requires Ready(img) && IsHome(Now(img), f) && !WouldShow(Now(img), f, n)
    requires n < NINDIRECT ==> At(Now(img), Slot(f, n)) == 0
    ensures InImage(f)
    ensures var r := AddBlock(img, f, n, words); r.Some? ==> Linked(img, r.value, f, n, words)
  {
    InUseBefore(img, f);
    IndirectNoHome(Now(img), f, f);
    var r := AddBlock(img, f, n, words);
    if r.Some? {
      assert n < NINDIRECT;
      if n < NDIRECT || At(Now(img), Indirect(f)) != 0 {
        LinkOld(img, f, n, words);
      } else {
        AddsIndex(img, f, n, words);
        LinkNew(img, f, n, words);
      }
      AddTouches(img, f, n, words);
    }
  }

  lemma AddsIndex(img: Image, f: Home, n: nat, words: Words)
    requires Proper(img) && InImage(f) && NDIRECT <= n && At(Now(img), Indirect(f)) == 0 && f.b != img.next
    ensures AddBlock(img, f, n, words).Some? ==> img.next + 2 <= NBLOCK
  {
    if img.next < NBLOCK {
      var img1 := img.(blocks := img.blocks[img.next := words], next := img.next + 1);
      assert Field(Now(img1), f, INDIRECT_WORD) == Field(Now(img), f, INDIRECT_WORD);
    }
  }

  // ---------- what stays ----------

  /** The name, the size and the kind of g are the same. */
  ghost predicate SameHead(s: Disk, s': Disk, g: Home) {
    forall i: nat | i < DIRECT_WORD :: Field(s', g, i) == Field(s, g, i)
  }

  /** g is the same file: its name, size and kind, and its blocks. */
  ghost predicate SameHome(s: Disk, s': Disk, g: Home) {
    SameMap(s, s', g) && SameView(s, s', g) && SameHead(s, s', g)
  }

  lemma TouchesOthers(img: Image, img': Image, f: Home, g: Home)
    requires Ready(img) && TouchesOnly(img, img', f) && IsHome(Now(img), f) && IsHome(Now(img), g) && g != f
    ensures SameHome(Now(img), Now(img'), g)
  {
    var s, s' := Now(img), Now(img');
    InUseBefore(img, g);
    HomesApart(s, f, g);
    IndirectNoHome(s, g, f);
    IndirectNoHome(s, f, g);
    if At(s, Indirect(g)) != 0 {
      IndirectsApart(s, g, f);
    }
    assert forall i: nat | i < FILE_WORDS :: Field(s', g, i) == Field(s, g, i);
    SameWordsSame(s, s', g);
  }

  /** The blocks of a file that is no directory, and f's own, are not where f's numbers are. */
  lemma SlotApart(s: Disk, f: Home, g: Home, k: nat)
    requires FsOk(s) && IsHome(s, f) && IsHome(s, g) && (!IsDir(s, g) || g == f)
    requires k < NINDIRECT && At(s, Slot(g, k)) != 0
    ensures At(s, Slot(g, k)) != f.b && At(s, Slot(g, k)) != At(s, Indirect(f))
  {
    var b := At(s, Slot(g, k));
    assert Owner(s, Slot(g, k), b);
    assert At(s, Indirect(f)) == b ==> Owner(s, Indirect(f), b);
    if g == f {
      NoOwnBlock(s, f, k);
    } else if f.b == b {
      NotShownNoHome(s, g, k, f);
    }
  }

  /** Block k of g has the contents that it had. */
  ghost predicate SameBlock(img: Image, img': Image, g: Home, k: nat)
    requires Proper(img) && Proper(img')
  {
    var b := At(Now(img), Slot(g, k));
    At(Now(img'), Slot(g, k)) == b && (0 < b < NBLOCK ==> img'.blocks[b] == img.blocks[b])
  }

  /** File g is there with all that it had. */
  ghost predicate KeepsFile(img: Image, img': Image, g: Home) {
    && Proper(img) && Proper(img') && IsHome(Now(img'), g) && SameHome(Now(img), Now(img'), g)
    && forall k: nat | k < NINDIRECT :: SameBlock(img, img', g, k)
  }

  lemma TouchedBlock(img: Image, img': Image, f: Home, g: Home, k: nat)
    requires Ready(img) && TouchesOnly(img, img', f) && IsHome(Now(img), f) && IsHome(Now(img), g)
    requires (!IsDir(Now(img), g) || g == f) && k < NINDIRECT && At(Now(img'), Slot(g, k)) == At(Now(img), Slot(g, k))
    ensures SameBlock(img, img', g, k)
  {
    InUseBefore(img, g);
    if At(Now(img), Slot(g, k)) != 0 {
      SlotApart(Now(img), f, g, k);
    }
  }

  lemma LinkedKeeps(img: Image, img': Image, f: Home, n: nat, words: Words, g: Home)
    requires Linked(img, img', f, n, words) && IsHome(Now(img), f)
    requires IsHome(Now(img), g) && g != f && !IsDir(Now(img), g)
    ensures KeepsFile(img, img', g)
  {
    TouchesOthers(img, img', f, g);
    forall k: nat | k < NINDIRECT ensures SameBlock(img, img', g, k) {
      TouchedBlock(img, img', f, g, k);
    }
  }

  lemma LinkedSelf(img: Image, img': Image, f: Home, n: nat, words: Words, k: nat)
    requires Linked(img, img', f, n, words) && IsHome(Now(img), f) && k < NINDIRECT && k != n
    ensures SameBlock(img, img', f, k)
  {
    TouchedBlock(img, img', f, f, k);
  }

  /** The same files exist; all but f are the same, and those that are no directories have the
      contents that they had; f has the same size, kind and name. */
  ghost predicate Steady(img: Image, img': Image, f: Home) {
    && Ready(img) && Ready(img') && img'.dirs == img.dirs
    && (forall g :: IsHome(Now(img'), g) <==> IsHome(Now(img), g)) && IsHome(Now(img), f)
    && (forall g | IsHome(Now(img), g) && g != f :: SameHome(Now(img), Now(img'), g))
    && (forall g | IsHome(Now(img), g) && g != f && !IsDir(Now(img), g) :: KeepsFile(img, img', g))
    && SameHead(Now(img), Now(img'), f)
  }

  lemma LinkedSteady(img: Image, img': Image, f: Home, n: nat, words: Words)
    requires Linked(img, img', f, n, words) && IsHome(Now(img), f)
    ensures Steady(img, img', f)
  {
    forall g | IsHome(Now(img), g) && g != f ensures SameHome(Now(img), Now(img'), g) {
      TouchesOthers(img, img', f, g);
    }
    forall g | IsHome(Now(img), g) && g != f && !IsDir(Now(img), g) ensures KeepsFile(img, img', g) {
      LinkedKeeps(img, img', f, n, words, g);
    }
  }

  lemma SameHomeTrans(s: Disk, s1: Disk, s2: Disk, g: Home)
    requires SameHome(s, s1, g) && SameHome(s1, s2, g)
    ensures SameHome(s, s2, g)
  {
  }

  lemma KeepsFileTrans(img: Image, img1: Image, img2: Image, g: Home)
    requires KeepsFile(img, img1, g) && KeepsFile(img1, img2, g)
    ensures KeepsFile(img, img2, g)
  {
    SameHomeTrans(Now(img), Now(img1), Now(img2), g);
    forall k: nat | k < NINDIRECT ensures SameBlock(img, img2, g, k) {
      assert SameBlock(img, img1, g, k) && SameBlock(img1, img2, g, k);
    }
  }

  lemma SteadyTrans(img: Image, img1: Image, img2: Image, f: Home)
    requires Steady(img, img1, f) && Steady(img1, img2, f)
    ensures Steady(img, img2, f)
  {
    forall g | IsHome(Now(img), g) && g != f ensures SameHome(Now(img), Now(img2), g) {
      SameHomeTrans(Now(img), Now(img1), Now(img2), g);
    }
    forall g | IsHome(Now(img), g) && g != f && !IsDir(Now(img), g) ensures KeepsFile(img, img2, g) {
      assert SameHome(Now(img), Now(img1), g);
      KeepsFileTrans(img, img1, img2, g);
    }
  }

  lemma SteadySelf(img: Image, f: Home)
    requires Ready(img) && IsHome(Now(img), f)
    ensures Steady(img, img, f)
  {
  }

  // ---------- whole files ----------

  /** The loop of write_file from block n on. */
  function AddBlocks(img: Image, f: Home, n: nat, chunks: seq<Words>): (r: Option<Image>)
    requires Proper(img) && InImage(f)
    ensures r.Some? ==> Proper(r.value)
    decreases |chunks|, img
  {
    if chunks == [] then Some(img)
    else
      var r := AddBlock(img, f, n, chunks[0]);
      if r.None? then None else AddBlocks(r.value, f, n + 1, chunks[1..])
  }

  /** File f has no blocks from n on. */
  ghost predicate EndsAt(s: Disk, f: Home, n: nat) {
    forall k: nat | n <= k < NINDIRECT :: At(s, Slot(f, k)) == 0
  }

  /** Block n of file f, found as file_block_walk does, has the contents `words`. */
  ghost predicate HoldsAt(img: Image, f: Home, n: nat, words: Words)
    requires Proper(img)
  {
    && n < NINDIRECT && 0 < At(Now(img), Slot(f, n)) < NBLOCK
    && img.blocks[At(Now(img), Slot(f, n))] == words
  }

  ghost predicate HoldsChunk(img: Image, f: Home, n: nat, chunks: seq<Words>, k: nat)
    requires Proper(img) && k < |chunks|
  {
    HoldsAt(img, f, n + k, chunks[k])
  }

  /** In img' file f has the contents of `chunks` from block n on, and ends there; before n, and
      in other files, nothing has changed. */
  ghost predicate Filled(img: Image, img': Image, f: Home, n: nat, chunks: seq<Words>) {
    && Steady(img, img', f) && EndsAt(Now(img'), f, n + |chunks|)
    && (forall k: nat | k < n && k < NINDIRECT :: SameBlock(img, img', f, k))
    && (forall k: nat | k < |chunks| :: HoldsChunk(img', f, n, chunks, k))
  }

  lemma FilledMore(img: Image, img1: Image, img2: Image, f: Home, n: nat, chunks: seq<Words>)
    requires chunks != [] && Linked(img, img1, f, n, chunks[0]) && IsHome(Now(img), f)
    requires Filled(img1, img2, f, n + 1, chunks[1..])
    ensures Filled(img, img2, f, n, chunks)
  {
    LinkedSteady(img, img1, f, n, chunks[0]);
    SteadyTrans(img, img1, img2, f);
    forall k: nat | k < n && k < NINDIRECT ensures SameBlock(img, img2, f, k) {
      LinkedSelf(img, img1, f, n, chunks[0], k);
      assert SameBlock(img1, img2, f, k);
    }
    forall k: nat | k < |chunks| ensures HoldsChunk(img2, f, n, chunks, k) {
      if k == 0 {
        assert SameBlock(img1, img2, f, n);
      } else {
        assert HoldsChunk(img2, f, n + 1, chunks[1..], k - 1);
      }
    }
  }

  lemma {:induction false} AddBlocksFills(img: Image, f: Home, n: nat, chunks: seq<Words>)
    requires Ready(img) && IsHome(Now(img), f) && !IsDir(Now(img), f) && EndsAt(Now(img), f, n)
    ensures InImage(f)
    ensures var r := AddBlocks(img, f, n, chunks);
      r.Some? ==> Filled(img, r.value, f, n, chunks)
    decreases |chunks|
  {
    InUseBefore(img, f);
    if chunks == [] {
      SteadySelf(img, f);
    } else {
      AddBlockLinks(img, f, n, chunks[0]);
      var r := AddBlock(img, f, n, chunks[0]);
      if r.Some? {
        AddBlocksFills(r.value, f, n + 1, chunks[1..]);
        var r2 := AddBlocks(r.value, f, n + 1, chunks[1..]);
        if r2.Some? {
          FilledMore(img, r.value, r2.value, f, n, chunks);
        }
      }
    }
  }

  // ---------- struct Files ----------

  /** Nothing but words of the struct File of f has changed. */
  ghost predicate OnlyStruct(img: Image, img': Image, f: Home) {
    && Proper(img) && Proper(img') && img'.next == img.next && InImage(f)
    && (forall b: nat | b < NBLOCK && b != f.b :: img'.blocks[b] == img.blocks[b])
    && (forall w: nat | w < NINDIRECT && !(f.w <= w < f.w + FILE_WORDS) :: img'.blocks[f.b][w] == img.blocks[f.b][w])
  }

  lemma StructOthers(img: Image, img': Image, f: Home, g: Home)
    requires Ready(img) && OnlyStruct(img, img', f) && IsHome(Now(img), f) && IsHome(Now(img), g) && g != f
    ensures SameHome(Now(img), Now(img'), g)
  {
    var s, s' := Now(img), Now(img');
    InUseBefore(img, g);
    HomesApart(s, f, g);
    IndirectNoHome(s, g, f);
    assert forall i: nat | i < FILE_WORDS :: Field(s', g, i) == Field(s, g, i);
    SameWordsSame(s, s', g);
  }

  lemma StructKeeps(img: Image, img': Image, f: Home, g: Home)
    requires Ready(img) && OnlyStruct(img, img', f) && IsHome(Now(img), f) && IsHome(Now(img), g)
    requires g != f && !IsDir(Now(img), g) && IsHome(Now(img'), g)
    ensures KeepsFile(img, img', g)
  {
    StructOthers(img, img', f, g);
    forall k: nat | k < NINDIRECT ensures SameBlock(img, img', g, k) {
      if At(Now(img), Slot(g, k)) != 0 {
        SlotApart(Now(img), f, g, k);
      }
    }
  }

  /** The name, the size and the kind of file f are written. */
  function PutHead(img: Image, f: Home, name: Name, size: nat, kind: nat): (r: Image)
    requires Proper(img) && InImage(f)
    ensures Proper(r)
  {
    var words := img.blocks[f.b];
    img.(blocks := img.blocks[f.b := words[..f.w] + (name + [size, kind]) + words[f.w + DIRECT_WORD..]])
  }

  /** f has the name, the size and the kind. */
  predicate Headed(s: Disk, f: Home, name: Name, size: nat, kind: nat) {
    (forall i: nat | i < SIZE_WORD :: Field(s, f, i) == name[i]) && Size(s, f) == size && Field(s, f, TYPE_WORD) == kind
  }

  lemma PutHeadWords(img: Image, f: Home, name: Name, size: nat, kind: nat)
    requires Proper(img) && InImage(f)
    ensures var img' := PutHead(img, f, name, size, kind);
      && OnlyStruct(img, img', f) && img'.dirs == img.dirs
      && Headed(Now(img'), f, name, size, kind)
      && forall i: nat | DIRECT_WORD <= i < FILE_WORDS :: Field(Now(img'), f, i) == Field(Now(img), f, i)
  {
  }

  // ---------- what the builder keeps ----------

  function BlocksFor(size: nat): nat { (size + BY2BLK - 1) / BY2BLK }

  ghost predicate Plain(s: Disk, f: Home) { !IsDir(s, f) && Size(s, f) == 0 && Barren(s, f) }

  /** A directory has all the blocks that its size says. */
  ghost predicate FullDir(s: Disk, f: Home) {
    && Size(s, f) % BY2BLK == 0 && Size(s, f) / BY2BLK <= NINDIRECT
    && forall n: nat | n < Size(s, f) / BY2BLK :: At(s, Slot(f, n)) != 0
  }

  /** A file ends where its size says; a struct File without a name is empty. */
  ghost predicate HomeOk(s: Disk, f: Home) {
    && EndsAt(s, f, BlocksFor(Size(s, f))) && (IsDir(s, f) ==> FullDir(s, f)) && (Unnamed(s, f) ==> Plain(s, f))
  }

  /** Between two items. */
  ghost predicate BuildOk(img: Image) {
    && Ready(img) && (forall f | IsHome(Now(img), f) :: HomeOk(Now(img), f))
    && (forall d | d in img.dirs :: IsHome(Now(img), d) && IsDir(Now(img), d))
  }

  lemma SameHomeOk(s: Disk, s': Disk, f: Home)
    requires HomeOk(s, f) && SameHome(s, s', f)
    ensures HomeOk(s', f)
  {
  }

  /** Directory g is there with the name it had, and at least the blocks. */
  ghost predicate KeepsDir(s: Disk, s': Disk, g: Home) {
    && IsHome(s', g) && (forall i: nat | i < SIZE_WORD || i == TYPE_WORD :: Field(s', g, i) == Field(s, g, i))
    && (forall n: nat | Shows(s, g, n) :: Shows(s', g, n) && At(s', Slot(g, n)) == At(s, Slot(g, n)))
  }

  /** Files in use, other than directories, are there with all that they had, and directories with
      the files in them. */
  ghost predicate KeepsFiles(img: Image, img': Image) {
    && Proper(img) && Proper(img') && img.dirs <= img'.dirs
    && (forall g | IsHome(Now(img), g) && IsDir(Now(img), g) && !Unnamed(Now(img), g) ::
          KeepsDir(Now(img), Now(img'), g))
    && forall g | IsHome(Now(img), g) && !IsDir(Now(img), g) && !Unnamed(Now(img), g) :: KeepsFile(img, img', g)
  }

  lemma KeepsFilesTrans(img: Image, img1: Image, img2: Image)
    requires KeepsFiles(img, img1) && KeepsFiles(img1, img2)
    ensures KeepsFiles(img, img2)
  {
    forall g | IsHome(Now(img), g) && !IsDir(Now(img), g) && !Unnamed(Now(img), g) ensures KeepsFile(img, img2, g) {
      assert KeepsFile(img, img1, g);
      KeepsFileTrans(img, img1, img2, g);
    }
  }

  lemma SameHomeKeepsDir(s: Disk, s': Disk, g: Home)
    requires SameHome(s, s', g) && IsHome(s', g)
    ensures KeepsDir(s, s', g)
  {
  }

  // ---------- a head for a new file ----------

  lemma HeadFile(img: Image, f: Home, name: Name, size: nat, kind: nat)
    requires Ready(img) && IsHome(Now(img), f) && Plain(Now(img), f)
    ensures InImage(f)
    ensures var s, s' := Now(img), Now(PutHead(img, f, name, size, kind));
      && SameMap(s, s', f) && SameView(s, s', f) && Barren(s', f)
      && Headed(s', f, name, size, kind) && (IsDir(s', f) <==> kind == FTYPE_DIR) && !Unnamed(s', f)
  {
    InUseBefore(img, f);
    IndirectNoHome(Now(img), f, f);
    PutHeadWords(img, f, name, size, kind);
    var s, s' := Now(img), Now(PutHead(img, f, name, size, kind));
    assert Field(s', f, INDIRECT_WORD) == Field(s, f, INDIRECT_WORD);
    forall n: nat | n < NINDIRECT ensures At(s', Slot(f, n)) == 0 {
      assert At(s, Slot(f, n)) == 0;
      if n < NDIRECT {
        assert Field(s', f, DIRECT_WORD + n) == Field(s, f, DIRECT_WORD + n);
      }
    }
  }

  lemma HeadKeepsReady(img: Image, f: Home, name: Name, size: nat, kind: nat)
    requires Ready(img) && IsHome(Now(img), f) && Plain(Now(img), f)
    ensures InImage(f)
    ensures var img' := PutHead(img, f, name, size, kind);
      Ready(img') && forall g :: IsHome(Now(img'), g) <==> IsHome(Now(img), g)
  {
    InUseBefore(img, f);
    HeadFile(img, f, name, size, kind);
    PutHeadWords(img, f, name, size, kind);
    var img' := PutHead(img, f, name, size, kind);
    forall g | IsHome(Now(img), g) ensures SameMap(Now(img), Now(img'), g) && SameView(Now(img), Now(img'), g) {
      if g != f {
        StructOthers(img, img', f, g);
      }
    }
    SameOwners(Now(img), Now(img'));
    SameOwnersOk(Now(img), Now(img'));
  }

  /** A struct File that was empty becomes a file of `size` bytes or an empty directory. */
  lemma HeadKeeps(img: Image, f: Home, name: Name, size: nat, kind: nat)
    requires BuildOk(img) && IsHome(Now(img), f) && Unnamed(Now(img), f) && (kind == FTYPE_DIR ==> size == 0)
    ensures InImage(f)
    ensures var img' := PutHead(img, f, name, size, kind);
      && BuildOk(img') && KeepsFiles(img, img') && IsHome(Now(img'), f) && EndsAt(Now(img'), f, 0)
      && Headed(Now(img'), f, name, size, kind)
      && (IsDir(Now(img'), f) <==> kind == FTYPE_DIR) && !Unnamed(Now(img'), f)
  {
    assert HomeOk(Now(img), f);
    InUseBefore(img, f);
    HeadFile(img, f, name, size, kind);
    HeadKeepsReady(img, f, name, size, kind);
    PutHeadWords(img, f, name, size, kind);
    var img' := PutHead(img, f, name, size, kind);
    HeadOthers(img, img', f);
    forall g | IsHome(Now(img'), g) ensures HomeOk(Now(img'), g) {
      if g != f {
        StructOthers(img, img', f, g);
        SameHomeOk(Now(img), Now(img'), g);
      }
    }
    forall d | d in img'.dirs ensures IsHome(Now(img'), d) && IsDir(Now(img'), d) {
      StructOthers(img, img', f, d);
    }
  }

  lemma HeadOthers(img: Image, img': Image, f: Home)
    requires Ready(img) && OnlyStruct(img, img', f) && img'.dirs == img.dirs
    requires IsHome(Now(img), f) && Unnamed(Now(img), f) && forall g :: IsHome(Now(img'), g) <==> IsHome(Now(img), g)
    ensures KeepsFiles(img, img')
  {
    forall g | IsHome(Now(img), g) && !IsDir(Now(img), g) && !Unnamed(Now(img), g) ensures KeepsFile(img, img', g) {
      StructKeeps(img, img', f, g);
    }
    forall g | IsHome(Now(img), g) && IsDir(Now(img), g) && !Unnamed(Now(img), g)
      ensures KeepsDir(Now(img), Now(img'), g)
    {
      StructOthers(img, img', f, g);
      SameHomeKeepsDir(Now(img), Now(img'), g);
    }
  }

  // ---------- a block for a directory ----------

  function Resized(img: Image, f: Home, size: nat): (r: Image)
    requires Proper(img) && InImage(f)
    ensures Proper(r)
  {
    PutWord(img, f.b, f.w + SIZE_WORD, size)
  }

  /** make_link_block: one more block of struct Files for a directory, number nextbno. */
  function MakeLinkBlock(img: Image, dir: Home): (r: Option<Image>)
    requires Proper(img) && InImage(dir)
    ensures r.Some? ==> Proper(r.value)
  {
    var r := LinkNext(img, dir, Size(Now(img), dir) / BY2BLK);
    if r.None? then None else Some(Resized(r.value, dir, Size(Now(r.value), dir) + BY2BLK))
  }

  lemma BlankNext(img: Image, f: Home, n: nat)
    requires Proper(img) && InImage(f) && Blank(img)
    ensures LinkNext(img, f, n) == AddBlock(img, f, n, ZeroWords())
  {
    if img.next < NBLOCK {
      assert img.blocks[img.next := ZeroWords()] == img.blocks;
    }
  }

  lemma ResizedStruct(img: Image, f: Home, size: nat)
    requires Proper(img) && InImage(f)
    ensures var img' := Resized(img, f, size);
      && OnlyStruct(img, img', f) && img'.dirs == img.dirs && Now(img') == SetSize(Now(img), f, size)
      && Field(Now(img'), f, 0) == Field(Now(img), f, 0)
  {
  }

  /** The struct Files of a blank block are empty, and have no names. */
  lemma BlankPlain(s: Disk, b: nat, c: Home)
    requires b < |s.data| && s.data[b] == ZeroWords() && c.b == b
    ensures Plain(s, c) && Unnamed(s, c) && HomeOk(s, c)
  {
    assert forall i: nat :: Field(s, c, i) == 0;
    assert At(s, Indirect(c)) == 0;
  }

  /** The directory f has grown by one blank block b. */
  lemma MoreIsBlank(s: Disk, f: Home, n: nat, b: nat)
    requires FsOk(s) && IsHome(s, f) && IsDir(s, f) && FullDir(s, f) && n == Size(s, f) / BY2BLK < NINDIRECT
    requires At(s, Slot(f, n)) == b && 0 < b < |s.data| && s.data[b] == ZeroWords()
    ensures IsPtr(s, f) && NewChildrenBarren(s, f, Size(s, f) + BY2BLK)
    ensures var s' := SetSize(s, f, Size(s, f) + BY2BLK);
      && (forall h | IsHome(s, h) :: IsHome(s', h))
      && (forall h | IsHome(s', h) :: IsHome(s, h) || (h.b == b && s'.data[b] == ZeroWords()))
      && (forall k: nat | k < FILE2BLK :: IsHome(s', Home(b, FILE_WORDS * k)))
  {
    SetSizeIs(s, f, Size(s, f) + BY2BLK);
    var s' := SetSize(s, f, Size(s, f) + BY2BLK);
    OneMoreCount(Size(s, f));
    forall m: nat, k: nat | IsDir(s, f) && Size(s, f) / BY2BLK <= m < (Size(s, f) + BY2BLK) / BY2BLK && m < NINDIRECT
      && At(s, Slot(f, m)) != 0 && k < FILE2BLK ensures Barren(s, ChildAt(s, f, m, k))
    {
      BlankPlain(s, b, ChildAt(s, f, m, k));
    }
    SetSizeGrows(s, s', f, Size(s, f) + BY2BLK);
    GrowsKeepsOwners(s, s', f);
    HomesBack(s, s', f);
    NoOwnBlock(s, f, n);
    forall k: nat | k < FILE2BLK ensures IsHome(s', Home(b, FILE_WORDS * k)) {
      ChildIsHome(s', f, n, k);
    }
  }

  lemma OneMoreCount(size: nat)
    ensures (size + BY2BLK) / BY2BLK == size / BY2BLK + 1 && (size + BY2BLK) % BY2BLK == size % BY2BLK
    ensures size % BY2BLK == 0 ==> BlocksFor(size) == size / BY2BLK
  {
  }

  /** img1 is img with the blank next block linked to dir, img2 that with the size for it. */
  lemma LinkBlockGrows(img: Image, img1: Image, img2: Image, dir: Home, n: nat)
    requires BuildOk(img) && dir in img.dirs && n == Size(Now(img), dir) / BY2BLK
    requires Linked(img, img1, dir, n, ZeroWords()) && InImage(dir)
    requires img2 == Resized(img1, dir, Size(Now(img1), dir) + BY2BLK)
    ensures Ready(img2) && img2.dirs == img.dirs
    ensures forall h | IsHome(Now(img), h) :: IsHome(Now(img2), h)
    ensures forall h | IsHome(Now(img2), h) ::
      IsHome(Now(img), h) || (h.b == img.next && img2.blocks[h.b] == ZeroWords())
    ensures forall k: nat | k < FILE2BLK :: IsHome(Now(img2), Home(img.next, FILE_WORDS * k))
    ensures img2.blocks[img.next] == ZeroWords()
  {
    var s, s1 := Now(img), Now(img1);
    assert HomeOk(s, dir);
    LinkedFull(img, img1, dir, n);
    ResizedStruct(img1, dir, Size(s1, dir) + BY2BLK);
    MoreIsBlank(s1, dir, n, img.next);
    GrowKeepsOk(s1, dir, Size(s1, dir) + BY2BLK);
    InUseBefore(img1, dir);
    NoOwnBlock(s1, dir, n);
  }

  lemma LinkedFull(img: Image, img1: Image, dir: Home, n: nat)
    requires BuildOk(img) && dir in img.dirs && n == Size(Now(img), dir) / BY2BLK
    requires Linked(img, img1, dir, n, ZeroWords())
    ensures IsHome(Now(img1), dir) && IsDir(Now(img1), dir) && FullDir(Now(img1), dir)
    ensures Size(Now(img1), dir) / BY2BLK == n < NINDIRECT && At(Now(img1), Slot(dir, n)) == img.next
  {
    assert HomeOk(Now(img), dir);
    forall k: nat | k < n ensures At(Now(img1), Slot(dir, k)) != 0 {
      assert At(Now(img), Slot(dir, k)) != 0;
    }
  }

  lemma GrownDirOk(img: Image, img1: Image, img2: Image, dir: Home, n: nat)
    requires BuildOk(img) && dir in img.dirs && n == Size(Now(img), dir) / BY2BLK
    requires Linked(img, img1, dir, n, ZeroWords()) && InImage(dir)
    requires img2 == Resized(img1, dir, Size(Now(img1), dir) + BY2BLK)
    ensures HomeOk(Now(img2), dir) && IsDir(Now(img2), dir)
  {
    var s, s1, s2 := Now(img), Now(img1), Now(img2);
    assert HomeOk(s, dir);
    LinkedFull(img, img1, dir, n);
    LinkedSteady(img, img1, dir, n, ZeroWords());
    ResizedStruct(img1, dir, Size(s1, dir) + BY2BLK);
    SetSizeIs(s1, dir, Size(s1, dir) + BY2BLK);
    OneMoreCount(Size(s, dir));
    OneMoreCount(Size(s, dir) + BY2BLK);
    forall k: nat | n + 1 <= k < NINDIRECT ensures At(s2, Slot(dir, k)) == 0 {
      assert At(s, Slot(dir, k)) == 0;
    }
    forall k: nat | k < n + 1 ensures At(s2, Slot(dir, k)) != 0 {
      assert At(s1, Slot(dir, k)) != 0;
    }
  }

  lemma GrownOtherOk(img: Image, img1: Image, img2: Image, dir: Home, n: nat, g: Home)
    requires BuildOk(img) && IsHome(Now(img), dir) && Linked(img, img1, dir, n, ZeroWords()) && InImage(dir)
    requires img2 == Resized(img1, dir, Size(Now(img1), dir) + BY2BLK)
    requires IsHome(Now(img), g) && g != dir
    ensures HomeOk(Now(img2), g) && SameHome(Now(img), Now(img2), g)
  {
    ResizedStruct(img1, dir, Size(Now(img1), dir) + BY2BLK);
    TouchesOthers(img, img1, dir, g);
    StructOthers(img1, img2, dir, g);
    SameHomeTrans(Now(img), Now(img1), Now(img2), g);
    SameHomeOk(Now(img), Now(img2), g);
  }

  /** make_link_block gives the directory a block of struct Files that are all empty, and keeps
      everything else. */
  lemma LinkBlockKeeps(img: Image, dir: Home)
    requires BuildOk(img) && dir in img.dirs
    ensures InImage(dir)
    ensures var r := MakeLinkBlock(img, dir);
      r.Some? ==> (
        && BuildOk(r.value) && KeepsFiles(img, r.value) && r.value.dirs == img.dirs && img.next < NBLOCK
        && Shows(Now(r.value), dir, Size(Now(img), dir) / BY2BLK)
        && At(Now(r.value), Slot(dir, Size(Now(img), dir) / BY2BLK)) == img.next
        && forall k: nat | k < FILE2BLK :: (
             && IsHome(Now(r.value), Home(img.next, FILE_WORDS * k))
             && Unnamed(Now(r.value), Home(img.next, FILE_WORDS * k))))
  {
    InUseBefore(img, dir);
    var n := Size(Now(img), dir) / BY2BLK;
    BlankNext(img, dir, n);
    var r := AddBlock(img, dir, n, ZeroWords());
    assert HomeOk(Now(img), dir);
    OneMoreCount(Size(Now(img), dir));
    AddBlockLinks(img, dir, n, ZeroWords());
    if r.Some? {
      LinkBlockGrows(img, r.value, MakeLinkBlock(img, dir).value, dir, n);
      GrownBuildOk(img, r.value, MakeLinkBlock(img, dir).value, dir, n);
      GrownKeeps(img, r.value, MakeLinkBlock(img, dir).value, dir, n);
      GrownShows(img, r.value, MakeLinkBlock(img, dir).value, dir, n);
    }
  }

  lemma GrownBuildOk(img: Image, img1: Image, img2: Image, dir: Home, n: nat)
    requires BuildOk(img) && dir in img.dirs && n == Size(Now(img), dir) / BY2BLK
    requires Linked(img, img1, dir, n, ZeroWords()) && InImage(dir)
    requires img2 == Resized(img1, dir, Size(Now(img1), dir) + BY2BLK)
    ensures BuildOk(img2)
    ensures forall k: nat | k < FILE2BLK :: Unnamed(Now(img2), Home(img.next, FILE_WORDS * k))
  {
    LinkBlockGrows(img, img1, img2, dir, n);
    forall g | IsHome(Now(img2), g) ensures HomeOk(Now(img2), g) {
      if g == dir {
        GrownDirOk(img, img1, img2, dir, n);
      } else if IsHome(Now(img), g) {
        GrownOtherOk(img, img1, img2, dir, n, g);
      } else {
        BlankPlain(Now(img2), g.b, g);
      }
    }
    forall d | d in img2.dirs ensures IsHome(Now(img2), d) && IsDir(Now(img2), d) {
      if d == dir {
        GrownDirOk(img, img1, img2, dir, n);
      } else {
        GrownOtherOk(img, img1, img2, dir, n, d);
      }
    }
    forall k: nat | k < FILE2BLK ensures Unnamed(Now(img2), Home(img.next, FILE_WORDS * k)) {
      BlankPlain(Now(img2), img.next, Home(img.next, FILE_WORDS * k));
    }
  }

  lemma GrownKeeps(img: Image, img1: Image, img2: Image, dir: Home, n: nat)
    requires BuildOk(img) && dir in img.dirs && n == Size(Now(img), dir) / BY2BLK
    requires Linked(img, img1, dir, n, ZeroWords()) && InImage(dir)
    requires img2 == Resized(img1, dir, Size(Now(img1), dir) + BY2BLK)
    requires forall h | IsHome(Now(img), h) :: IsHome(Now(img2), h)
    ensures KeepsFiles(img, img2)
  {
    ResizedStruct(img1, dir, Size(Now(img1), dir) + BY2BLK);
    forall g | IsHome(Now(img), g) && IsDir(Now(img), g) && !Unnamed(Now(img), g)
      ensures KeepsDir(Now(img), Now(img2), g)
    {
      if g == dir {
        GrownDirKept(img, img1, img2, dir, n);
      } else {
        GrownOtherOk(img, img1, img2, dir, n, g);
        SameHomeKeepsDir(Now(img), Now(img2), g);
      }
    }
    forall g | IsHome(Now(img), g) && !IsDir(Now(img), g) && !Unnamed(Now(img), g) ensures KeepsFile(img, img2, g) {
      LinkedKeeps(img, img1, dir, n, ZeroWords(), g);
      StructKeeps(img1, img2, dir, g);
      KeepsFileTrans(img, img1, img2, g);
    }
  }

  lemma GrownShows(img: Image, img1: Image, img2: Image, dir: Home, n: nat)
    requires BuildOk(img) && dir in img.dirs && n == Size(Now(img), dir) / BY2BLK
    requires Linked(img, img1, dir, n, ZeroWords()) && InImage(dir)
    requires img2 == Resized(img1, dir, Size(Now(img1), dir) + BY2BLK)
    ensures Shows(Now(img2), dir, n) && At(Now(img2), Slot(dir, n)) == img.next
  {
    LinkedFull(img, img1, dir, n);
    ResizedStruct(img1, dir, Size(Now(img1), dir) + BY2BLK);
    SetSizeIs(Now(img1), dir, Size(Now(img1), dir) + BY2BLK);
    OneMoreCount(Size(Now(img1), dir));
  }

  lemma GrownDirKept(img: Image, img1: Image, img2: Image, dir: Home, n: nat)
    requires BuildOk(img) && dir in img.dirs && n == Size(Now(img), dir) / BY2BLK
    requires Linked(img, img1, dir, n, ZeroWords()) && InImage(dir)
    requires img2 == Resized(img1, dir, Size(Now(img1), dir) + BY2BLK) && IsHome(Now(img2), dir)
    ensures KeepsDir(Now(img), Now(img2), dir)
  {
    LinkedFull(img, img1, dir, n);
    LinkedSteady(img, img1, dir, n, ZeroWords());
    ResizedStruct(img1, dir, Size(Now(img1), dir) + BY2BLK);
    SetSizeIs(Now(img1), dir, Size(Now(img1), dir) + BY2BLK);
    OneMoreCount(Size(Now(img), dir));
    ResizedKept(Now(img), Now(img1), Now(img2), dir, n);
  }

  lemma ResizedKept(s: Disk, s1: Disk, s2: Disk, dir: Home, n: nat)
    requires IsHome(s2, dir) && IsDir(s, dir) && IsPtr(s1, dir) && Size(s, dir) / BY2BLK == n
    requires SameHead(s, s1, dir)
    requires forall k: nat | k != n && k < NINDIRECT :: At(s1, Slot(dir, k)) == At(s, Slot(dir, k))
    requires s2 == SetSize(s1, dir, Size(s1, dir) + BY2BLK) && SameMap(s1, s2, dir)
    requires Size(s2, dir) / BY2BLK == n + 1 && IsDir(s2, dir)
    ensures KeepsDir(s, s2, dir)
  {
    forall i: nat | i < SIZE_WORD || i == TYPE_WORD ensures Field(s2, dir, i) == Field(s, dir, i) {
      assert Field(s1, dir, i) == Field(s, dir, i);
    }
  }

  // ---------- create_file ----------

  /** The loop of create_file from block i of the directory on. */
  function ScanFor(img: Image, dir: Home, i: nat, nblk: nat): (r: Option<Home>)
    requires Proper(img)
    decreases nblk - i
  {
    if i >= nblk then None
    else
      var b := At(Now(img), Slot(dir, i));
      var j := FindUnnamed(Now(img), b, 0);
      if j < FILE2BLK then Some(Home(b, FILE_WORDS * j)) else ScanFor(img, dir, i + 1, nblk)
  }

  /** create_file: the image, and the struct File to use. */
  function CreateFile(img: Image, dir: Home): (r: Option<(Image, Home)>)
    requires Proper(img) && InImage(dir)
    ensures r.Some? ==> Proper(r.value.0)
  {
    var found := ScanFor(img, dir, 0, Size(Now(img), dir) / BY2BLK);
    if found.Some? then Some((img, found.value))
    else
      var r := MakeLinkBlock(img, dir);
      if r.None? then None else Some((r.value, Home(img.next, 0)))
  }

  /** f is a struct File without a name in one of the blocks of dir from i to nblk, or there is
      none. */
  ghost predicate FreeFile(s: Disk, dir: Home, i: nat, nblk: nat, f: Option<Home>) {
    && (f.Some? ==> IsHome(s, f.value) && Unnamed(s, f.value) && IsEntry(s, dir, i, nblk, f.value))
    && (f.None? ==> forall n: nat, k: nat | i <= n < nblk && k < FILE2BLK :: !Unnamed(s, ChildAt(s, dir, n, k)))
  }

  lemma {:induction false} ScanForFinds(img: Image, dir: Home, i: nat, nblk: nat)
    requires Proper(img) && IsHome(Now(img), dir) && forall n: nat | n < nblk :: Shows(Now(img), dir, n)
    ensures FreeFile(Now(img), dir, i, nblk, ScanFor(img, dir, i, nblk))
    decreases nblk - i
  {
    if i < nblk {
      var s := Now(img);
      var j := FindUnnamed(s, At(s, Slot(dir, i)), 0);
      ScanForRound(img, dir, i, nblk);
      if j < FILE2BLK {
        FoundHere(s, dir, i, nblk, j);
      } else {
        ScanForFinds(img, dir, i + 1, nblk);
        FoundLater(s, dir, i, nblk, ScanFor(img, dir, i + 1, nblk));
      }
    }
  }

  lemma ScanForRound(img: Image, dir: Home, i: nat, nblk: nat)
    requires Proper(img) && i < nblk
    ensures var s := Now(img); var j := FindUnnamed(s, At(s, Slot(dir, i)), 0);
      ScanFor(img, dir, i, nblk) ==
      if j < FILE2BLK then Some(ChildAt(s, dir, i, j)) else ScanFor(img, dir, i + 1, nblk)
  {
  }

  lemma FoundHere(s: Disk, dir: Home, i: nat, nblk: nat, j: nat)
    requires IsHome(s, dir) && i < nblk && Shows(s, dir, i) && j < FILE2BLK && Unnamed(s, ChildAt(s, dir, i, j))
    ensures FreeFile(s, dir, i, nblk, Some(ChildAt(s, dir, i, j)))
  {
    ChildIsHome(s, dir, i, j);
  }

  lemma FoundLater(s: Disk, dir: Home, i: nat, nblk: nat, f: Option<Home>)
    requires FreeFile(s, dir, i + 1, nblk, f) && forall k: nat | k < FILE2BLK :: !Unnamed(s, ChildAt(s, dir, i, k))
    ensures FreeFile(s, dir, i, nblk, f)
  {
  }

  lemma FullShows(s: Disk, dir: Home)
    requires IsDir(s, dir) && FullDir(s, dir)
    ensures forall n: nat | n < Size(s, dir) / BY2BLK :: Shows(s, dir, n)
  {
    forall n: nat | n < Size(s, dir) / BY2BLK ensures Shows(s, dir, n) {
      assert At(s, Slot(dir, n)) != 0;
    }
  }

  /** create_file finds a struct File without a name, which is empty. */
  lemma CreateKeeps(img: Image, dir: Home)
    requires BuildOk(img) && dir in img.dirs
    ensures InImage(dir)
    ensures var r := CreateFile(img, dir);
      r.Some? ==> (
        var (img1, f) := r.value;
        && BuildOk(img1) && KeepsFiles(img, img1) && img1.dirs == img.dirs
        && IsHome(Now(img1), f) && Unnamed(Now(img1), f) && IsEntry(Now(img1), dir, 0, NINDIRECT, f))
  {
    InUseBefore(img, dir);
    assert HomeOk(Now(img), dir);
    FullShows(Now(img), dir);
    var nblk := Size(Now(img), dir) / BY2BLK;
    ScanForFinds(img, dir, 0, nblk);
    KeepsFilesSelf(img);
    LinkBlockKeeps(img, dir);
    if ScanFor(img, dir, 0, nblk).Some? {
      MoreEntries(Now(img), dir, nblk, ScanFor(img, dir, 0, nblk).value);
    } else if MakeLinkBlock(img, dir).Some? {
      NewEntry(Now(MakeLinkBlock(img, dir).value), dir, nblk, img.next);
    }
  }

  lemma MoreEntries(s: Disk, dir: Home, nblk: nat, f: Home)
    requires IsEntry(s, dir, 0, nblk, f) && nblk <= NINDIRECT
    ensures IsEntry(s, dir, 0, NINDIRECT, f)
  {
    var n: nat, k: nat :| n < nblk && k < FILE2BLK && Shows(s, dir, n) && f == ChildAt(s, dir, n, k);
    assert n < NINDIRECT;
  }

  lemma NewEntry(s: Disk, dir: Home, n: nat, b: nat)
    requires Shows(s, dir, n) && At(s, Slot(dir, n)) == b
    ensures IsEntry(s, dir, 0, NINDIRECT, Home(b, 0))
    requires forall k: nat | k < FILE2BLK :: IsHome(s, Home(b, FILE_WORDS * k)) && Unnamed(s, Home(b, FILE_WORDS * k))
    ensures IsHome(s, Home(b, 0)) && Unnamed(s, Home(b, 0))
  {
    var k: nat := 0;
    assert Home(b, FILE_WORDS * k) == Home(b, 0) == ChildAt(s, dir, n, k);
  }

  lemma KeepsFilesSelf(img: Image)
    requires Proper(img)
    ensures KeepsFiles(img, img)
  {
  }

  // ---------- items ----------

  /** What is put into a directory of the image. */
  datatype Item =
    | PutFile(dir: Home, name: Name, size: nat, chunks: seq<Words>)
    | PutDir(dir: Home, name: Name)

  const FTYPE_REG: nat := 0

  /** write_file, or the part of write_directory before its loop: the image, and the new file. */
  function PutItem(img: Image, item: Item): (r: Option<(Image, Home)>)
    requires Proper(img)
    ensures r.Some? ==> Proper(r.value.0)
  {
    if item.dir !in img.dirs || !InImage(item.dir) then None
    else
      var r := CreateFile(img, item.dir);
      if r.None? || !InImage(r.value.1) then None
      else
        var (img1, f) := r.value;
        match item
        case PutDir(_, name) =>
          var img2 := PutHead(img1, f, name, Size(Now(img1), f), FTYPE_DIR);
          Some((img2.(dirs := img2.dirs + {f}), f))
        case PutFile(_, name, size, chunks) =>
          if |chunks| != BlocksFor(size) then None
          else
            var r := AddBlocks(PutHead(img1, f, name, size, FTYPE_REG), f, 0, chunks);
            if r.None? then None else Some((r.value, f))
  }

  function Build(img: Image, items: seq<Item>): (r: Option<Image>)
    requires Proper(img)
    ensures r.Some? ==> Proper(r.value)
    decreases |items|, img
  {
    if items == [] then Some(img)
    else
      var r := PutItem(img, items[0]);
      if r.None? then None else Build(r.value.0, items[1..])
  }

  /** The struct File that item i gets. */
  function FileOf(img: Image, items: seq<Item>, i: nat): (r: Option<Home>)
    requires Proper(img) && i < |items|
    decreases |items|, img
  {
    var r := PutItem(img, items[0]);
    if r.None? then None else if i == 0 then Some(r.value.1) else FileOf(r.value.0, items[1..], i - 1)
  }

  /** File f is a regular file with the contents of `chunks`, and no more. */
  ghost predicate Holds(img: Image, f: Home, chunks: seq<Words>) {
    && Proper(img) && IsHome(Now(img), f) && !IsDir(Now(img), f) && !Unnamed(Now(img), f)
    && forall k: nat | k < |chunks| :: HoldsAt(img, f, k, chunks[k])
  }

  lemma FillKeeps(img: Image, f: Home, chunks: seq<Words>)
    requires BuildOk(img) && IsHome(Now(img), f) && !IsDir(Now(img), f) && !Unnamed(Now(img), f)
    requires EndsAt(Now(img), f, 0) && |chunks| == BlocksFor(Size(Now(img), f))
    ensures InImage(f)
    ensures var r := AddBlocks(img, f, 0, chunks);
      r.Some? ==> (
        && BuildOk(r.value) && Holds(r.value, f, chunks) && r.value.dirs == img.dirs
        && SameHead(Now(img), Now(r.value), f)
        && (forall g | IsHome(Now(img), g) && g != f :: IsHome(Now(r.value), g) && SameHome(Now(img), Now(r.value), g))
        && forall g | IsHome(Now(img), g) && g != f && !IsDir(Now(img), g) :: KeepsFile(img, r.value, g))
  {
    AddBlocksFills(img, f, 0, chunks);
    var r := AddBlocks(img, f, 0, chunks);
    if r.Some? {
      forall g | IsHome(Now(r.value), g) ensures HomeOk(Now(r.value), g) {
        if g != f {
          SameHomeOk(Now(img), Now(r.value), g);
        }
      }
      forall d | d in r.value.dirs ensures IsDir(Now(r.value), d) {
        assert SameHome(Now(img), Now(r.value), d);
      }
      forall k: nat | k < |chunks| ensures HoldsAt(r.value, f, k, chunks[k]) {
        assert HoldsChunk(r.value, f, 0, chunks, k);
      }
    }
  }

  /** f is in the directory that the item names, with the name, kind and size of the item. */
  ghost predicate Placed(img: Image, item: Item, f: Home) {
    && Proper(img) && IsHome(Now(img), item.dir) && !Unnamed(Now(img), item.dir) && IsHome(Now(img), f)
    && IsEntry(Now(img), item.dir, 0, NINDIRECT, f)
    && (forall i: nat | i < SIZE_WORD :: Field(Now(img), f, i) == item.name[i])
    && match item
       case PutFile(_, _, size, _) => Field(Now(img), f, TYPE_WORD) == FTYPE_REG && Size(Now(img), f) == size
       case PutDir(_, _) => Field(Now(img), f, TYPE_WORD) == FTYPE_DIR && f in img.dirs
  }

  lemma EntryKept(s: Disk, s': Disk, dir: Home, f: Home)
    requires KeepsDir(s, s', dir) && IsEntry(s, dir, 0, NINDIRECT, f)
    ensures IsEntry(s', dir, 0, NINDIRECT, f)
  {
    var n: nat, k: nat :| n < NINDIRECT && k < FILE2BLK && Shows(s, dir, n) && f == ChildAt(s, dir, n, k);
    assert Shows(s', dir, n) && f == ChildAt(s', dir, n, k);
  }

  lemma EntryOfDir(s: Disk, dir: Home, f: Home)
    requires IsEntry(s, dir, 0, NINDIRECT, f)
    ensures IsDir(s, dir)
  {
    var n: nat, k: nat :| n < NINDIRECT && k < FILE2BLK && Shows(s, dir, n) && f == ChildAt(s, dir, n, k);
  }

  lemma PlacedKept(img: Image, img': Image, item: Item, f: Home)
    requires KeepsFiles(img, img') && Placed(img, item, f)
    ensures Placed(img', item, f)
  {
    EntryOfDir(Now(img), item.dir, f);
    assert KeepsDir(Now(img), Now(img'), item.dir);
    EntryKept(Now(img), Now(img'), item.dir, f);
    assert !Unnamed(Now(img), f) by {
      assert Field(Now(img), f, 0) == item.name[0];
    }
    if item.PutFile? {
      assert KeepsFile(img, img', f);
      assert SameHead(Now(img), Now(img'), f);
    } else {
      assert KeepsDir(Now(img), Now(img'), f);
    }
  }

  /** Putting a head on an entry and filling it leaves it where it is. */
  lemma PlacedByPut(img1: Image, img2: Image, img3: Image, item: Item, f: Home, kind: nat)
    requires BuildOk(img1) && item.dir in img1.dirs && IsEntry(Now(img1), item.dir, 0, NINDIRECT, f)
    requires KeepsFiles(img1, img2) && Headed(Now(img2), f, item.name, Size(Now(img2), f), kind) && Proper(img3)
    requires KeepsDir(Now(img2), Now(img3), item.dir) && IsHome(Now(img3), f) && SameHead(Now(img2), Now(img3), f)
    requires item.PutFile? ==> kind == FTYPE_REG && Size(Now(img2), f) == item.size
    requires item.PutDir? ==> kind == FTYPE_DIR && f in img3.dirs
    ensures Placed(img3, item, f)
  {
    assert HomeOk(Now(img1), item.dir) && !Unnamed(Now(img1), item.dir);
    assert KeepsDir(Now(img1), Now(img2), item.dir);
    EntryKept(Now(img1), Now(img2), item.dir, f);
    EntryKept(Now(img2), Now(img3), item.dir, f);
    assert Field(Now(img3), item.dir, 0) == Field(Now(img1), item.dir, 0);
  }

  /** One item: a file gets what was read for it, in the place and with the name and size that it
      is to have, and the files that were there keep theirs. */
  lemma PutKeeps(img: Image, item: Item)
    requires BuildOk(img)
    ensures var r := PutItem(img, item);
      r.Some? ==> (
        && BuildOk(r.value.0) && KeepsFiles(img, r.value.0) && Placed(r.value.0, item, r.value.1)
        && (item.PutFile? ==> Holds(r.value.0, r.value.1, item.chunks)))
  {
    if PutItem(img, item).Some? {
      CreateKeeps(img, item.dir);
      var (img1, f) := CreateFile(img, item.dir).value;
      PutPlaces(img1, f, item);
      match item
      case PutDir(_, name) => PutDirKeeps(img, img1, f, name);
      case PutFile(_, name, size, chunks) => PutFileKeeps(img, img1, f, name, size, chunks);
    }
  }

  lemma PutPlaces(img1: Image, f: Home, item: Item)
    requires BuildOk(img1) && item.dir in img1.dirs && IsEntry(Now(img1), item.dir, 0, NINDIRECT, f)
    requires IsHome(Now(img1), f) && Unnamed(Now(img1), f)
    ensures InImage(f)
    ensures item.PutDir? ==>
      var img2 := PutHead(img1, f, item.name, Size(Now(img1), f), FTYPE_DIR);
      Placed(img2.(dirs := img2.dirs + {f}), item, f)
    ensures item.PutFile? && |item.chunks| == BlocksFor(item.size) ==>
      var r := AddBlocks(PutHead(img1, f, item.name, item.size, FTYPE_REG), f, 0, item.chunks);
      r.Some? ==> Placed(r.value, item, f)
  {
    InUseBefore(img1, f);
    assert HomeOk(Now(img1), f) && HomeOk(Now(img1), item.dir);
    var size := if item.PutFile? then item.size else 0;
    var kind := if item.PutFile? then FTYPE_REG else FTYPE_DIR;
    HeadKeeps(img1, f, item.name, size, kind);
    var img2 := PutHead(img1, f, item.name, size, kind);
    assert KeepsDir(Now(img1), Now(img2), item.dir);
    match item
    case PutDir(_, _) =>
      var img3 := img2.(dirs := img2.dirs + {f});
      assert Now(img3) == Now(img2);
      PlacedByPut(img1, img2, img3, item, f, kind);
    case PutFile(_, _, _, chunks) =>
      if |chunks| == BlocksFor(size) {
        FillKeeps(img2, f, chunks);
        var r := AddBlocks(img2, f, 0, chunks);
        if r.Some? {
          SameHomeKeepsDir(Now(img2), Now(r.value), item.dir);
          PlacedByPut(img1, img2, r.value, item, f, kind);
        }
      }
  }

  lemma PutDirKeeps(img: Image, img1: Image, f: Home, name: Name)
    requires BuildOk(img1) && KeepsFiles(img, img1) && IsHome(Now(img1), f) && Unnamed(Now(img1), f)
    ensures InImage(f)
    ensures var img2 := PutHead(img1, f, name, Size(Now(img1), f), FTYPE_DIR);
      var img3 := img2.(dirs := img2.dirs + {f});
      BuildOk(img3) && KeepsFiles(img, img3)
  {
    InUseBefore(img1, f);
    assert HomeOk(Now(img1), f);
    HeadKeeps(img1, f, name, 0, FTYPE_DIR);
    var img2 := PutHead(img1, f, name, 0, FTYPE_DIR);
    var img3 := img2.(dirs := img2.dirs + {f});
    assert Now(img3) == Now(img2);
    KeepsFilesTrans(img, img1, img2);
    forall g | IsHome(Now(img), g) && !IsDir(Now(img), g) && !Unnamed(Now(img), g) ensures KeepsFile(img, img3, g) {
      assert KeepsFile(img, img2, g);
      assert forall k: nat | k < NINDIRECT :: SameBlock(img, img2, g, k) ==> SameBlock(img, img3, g, k);
    }
  }

  lemma PutFileKeeps(img: Image, img1: Image, f: Home, name: Name, size: nat, chunks: seq<Words>)
    requires BuildOk(img1) && KeepsFiles(img, img1) && IsHome(Now(img1), f) && Unnamed(Now(img1), f)
    requires |chunks| == BlocksFor(size)
    ensures InImage(f)
    ensures var r := AddBlocks(PutHead(img1, f, name, size, FTYPE_REG), f, 0, chunks);
      r.Some? ==> BuildOk(r.value) && KeepsFiles(img, r.value) && Holds(r.value, f, chunks)
  {
    InUseBefore(img1, f);
    HeadKeeps(img1, f, name, size, FTYPE_REG);
    var img2 := PutHead(img1, f, name, size, FTYPE_REG);
    FillKeeps(img2, f, chunks);
    var r := AddBlocks(img2, f, 0, chunks);
    if r.Some? {
      FilledKeeps(img1, img2, r.value, f);
      KeepsFilesTrans(img, img1, r.value);
    }
  }

  lemma FilledKeeps(img1: Image, img2: Image, img3: Image, f: Home)
    requires Proper(img3) && KeepsFiles(img1, img2) && Unnamed(Now(img1), f) && img3.dirs == img2.dirs
    requires forall g | IsHome(Now(img2), g) && g != f && !IsDir(Now(img2), g) :: KeepsFile(img2, img3, g)
    requires forall g | IsHome(Now(img2), g) && g != f :: IsHome(Now(img3), g) && SameHome(Now(img2), Now(img3), g)
    ensures KeepsFiles(img1, img3)
  {
    forall g | IsHome(Now(img1), g) && IsDir(Now(img1), g) && !Unnamed(Now(img1), g)
      ensures KeepsDir(Now(img1), Now(img3), g)
    {
      assert KeepsDir(Now(img1), Now(img2), g);
      SameHomeKeepsDir(Now(img2), Now(img3), g);
    }
    forall g | IsHome(Now(img1), g) && !IsDir(Now(img1), g) && !Unnamed(Now(img1), g) ensures KeepsFile(img1, img3, g) {
      assert KeepsFile(img1, img2, g);
      KeepsFileTrans(img1, img2, img3, g);
    }
  }

  lemma {:induction false} BuildKeeps(img: Image, items: seq<Item>)
    requires BuildOk(img)
    ensures var r := Build(img, items);
      r.Some? ==> BuildOk(r.value) && KeepsFiles(img, r.value)
    decreases |items|
  {
    if items == [] {
      KeepsFilesSelf(img);
    } else if PutItem(img, items[0]).Some? {
      var img1 := PutItem(img, items[0]).value.0;
      PutKeeps(img, items[0]);
      BuildKeeps(img1, items[1..]);
      var r := Build(img1, items[1..]);
      if r.Some? {
        KeepsFilesTrans(img, img1, r.value);
      }
    }
  }

  lemma HoldsKept(img: Image, img': Image, f: Home, chunks: seq<Words>)
    requires KeepsFiles(img, img') && Holds(img, f, chunks)
    ensures Holds(img', f, chunks)
  {
    assert KeepsFile(img, img', f);
    forall k: nat | k < |chunks| ensures HoldsAt(img', f, k, chunks[k]) {
      assert HoldsAt(img, f, k, chunks[k]);
      assert SameBlock(img, img', f, k);
    }
  }

  ghost predicate HoldsIn(r: Option<Image>, f: Option<Home>, chunks: seq<Words>) {
    r.Some? ==> f.Some? && Ready(r.value) && Holds(r.value, f.value, chunks)
  }

  /** The file that an item made has, at the end of the build, the contents read for it. */
  lemma {:induction false} BuildHolds(img: Image, items: seq<Item>, i: nat)
    requires BuildOk(img) && i < |items| && items[i].PutFile?
    ensures HoldsIn(Build(img, items), FileOf(img, items, i), items[i].chunks)
    decreases |items|
  {
    if PutItem(img, items[0]).Some? {
      var (img1, f) := PutItem(img, items[0]).value;
      PutKeeps(img, items[0]);
      if i == 0 {
        FirstHolds(img1, f, items);
      } else {
        assert items[1..][i - 1] == items[i];
        BuildHolds(img1, items[1..], i - 1);
      }
    }
  }

  lemma FirstPlaced(img: Image, items: seq<Item>, end: Image) returns (img1: Image, f: Home)
    requires BuildOk(img) && items != [] && Build(img, items) == Some(end)
    ensures PutItem(img, items[0]) == Some((img1, f))
    ensures BuildOk(img1) && Build(img1, items[1..]) == Some(end) && Placed(end, items[0], f)
  {
    img1, f := PutItem(img, items[0]).value.0, PutItem(img, items[0]).value.1;
    PutKeeps(img, items[0]);
    BuildKeeps(img1, items[1..]);
    PlacedKept(img1, end, items[0], f);
  }

  lemma LaterFile(img: Image, items: seq<Item>, rest: seq<Item>, k: nat, img1: Image, f0: Home)
    requires Proper(img) && Proper(img1) && k < |rest| && items != [] && rest == items[1..]
    requires PutItem(img, items[0]) == Some((img1, f0))
    ensures FileOf(img, items, k + 1) == FileOf(img1, rest, k)
  {
  }

  ghost predicate PlacedIn(end: Image, item: Item, f: Option<Home>) {
    f.Some? && Placed(end, item, f.value)
  }

  /** And whatever an item made is, at the end of the build, in the directory that the item names,
      under its name, a directory or a file of its size. */
  lemma {:induction false} BuildPlaces(img: Image, items: seq<Item>, i: nat, end: Image)
    requires BuildOk(img) && i < |items| && Build(img, items) == Some(end)
    ensures PlacedIn(end, items[i], FileOf(img, items, i))
    decreases |items|
  {
    var img1, f := FirstPlaced(img, items, end);
    if i > 0 {
      var rest, k: nat := items[1..], i - 1;
      BuildPlaces(img1, rest, k, end);
      LaterFile(img, items, rest, k, img1, f);
      PlacedThere(end, rest[k], FileOf(img1, rest, k), FileOf(img, items, k + 1));
    } else {
      PlacedThere(end, items[0], Some(f), FileOf(img, items, 0));
    }
  }

  lemma PlacedThere(end: Image, item: Item, f: Option<Home>, g: Option<Home>)
    requires PlacedIn(end, item, f) && g == f
    ensures PlacedIn(end, item, g)
  {
  }

  lemma FirstHolds(img1: Image, f: Home, items: seq<Item>)
    requires BuildOk(img1) && items != [] && items[0].PutFile? && Holds(img1, f, items[0].chunks)
    ensures HoldsIn(Build(img1, items[1..]), Some(f), items[0].chunks)
  {
    BuildKeeps(img1, items[1..]);
    var r := Build(img1, items[1..]);
    if r.Some? {
      HoldsKept(img1, r.value, f, items[0].chunks);
    }
  }

  // ---------- when building succeeds ----------

  /** How many blocks it takes to give file f, which has n blocks, k more. */
  function BlocksNeeded(s: Disk, f: Home, n: nat, k: nat): nat {
    k + if k > 0 && n + k > NDIRECT && At(s, Indirect(f)) == 0 then 1 else 0
  }

  lemma AddBlockSucceeds(img: Image, f: Home, n: nat, words: Words)
    requires Ready(img) && IsHome(Now(img), f) && !WouldShow(Now(img), f, n)
    requires n < NINDIRECT ==> At(Now(img), Slot(f, n)) == 0
    ensures InImage(f)
    ensures var r := AddBlock(img, f, n, words);
      && (r.Some? <==> n < NINDIRECT && img.next + BlocksNeeded(Now(img), f, n, 1) <= NBLOCK)
      && (r.Some? ==>
            && r.value.next == img.next + BlocksNeeded(Now(img), f, n, 1)
            && (At(Now(r.value), Indirect(f)) == 0 <==> At(Now(img), Indirect(f)) == 0 && n < NDIRECT))
  {
    InUseBefore(img, f);
    IndirectNoHome(Now(img), f, f);
    if n < NINDIRECT && img.next + BlocksNeeded(Now(img), f, n, 1) <= NBLOCK {
      if n < NDIRECT || At(Now(img), Indirect(f)) != 0 {
        LinkOld(img, f, n, words);
        OldIndirect(img, f, n, words);
      } else {
        LinkNew(img, f, n, words);
        assert Owner(Now(AddBlock(img, f, n, words).value), Slot(f, n), img.next);
      }
    } else if img.next < NBLOCK && NDIRECT <= n < NINDIRECT {
      AddsIndex(img, f, n, words);
    }
  }

  lemma OldIndirect(img: Image, f: Home, n: nat, words: Words)
    requires Proper(img) && InImage(f) && f.b < img.next < NBLOCK && n < NINDIRECT
    requires n < NDIRECT || 0 < At(Now(img), Indirect(f)) < img.next
    requires At(Now(img), Indirect(f)) != f.b
    ensures AddBlock(img, f, n, words).Some?
    ensures At(Now(AddBlock(img, f, n, words).value), Indirect(f)) == At(Now(img), Indirect(f))
  {
    var img1 := img.(blocks := img.blocks[img.next := words], next := img.next + 1);
    assert Field(Now(img1), f, INDIRECT_WORD) == Field(Now(img), f, INDIRECT_WORD);
  }

  lemma {:induction false} AddBlocksSucceeds(img: Image, f: Home, n: nat, chunks: seq<Words>)
    requires Ready(img) && IsHome(Now(img), f) && !IsDir(Now(img), f) && EndsAt(Now(img), f, n)
    ensures InImage(f)
    ensures var r, k := AddBlocks(img, f, n, chunks), |chunks|;
      && (r.Some? <==> (k > 0 ==> n + k <= NINDIRECT) && img.next + BlocksNeeded(Now(img), f, n, k) <= NBLOCK)
      && (r.Some? ==> r.value.next == img.next + BlocksNeeded(Now(img), f, n, k))
    decreases |chunks|
  {
    InUseBefore(img, f);
    if chunks != [] {
      AddBlockSucceeds(img, f, n, chunks[0]);
      AddBlockLinks(img, f, n, chunks[0]);
      var r := AddBlock(img, f, n, chunks[0]);
      if r.Some? {
        AddBlocksSucceeds(r.value, f, n + 1, chunks[1..]);
      }
    }
  }

  /** The directory has a struct File to spare in one of its blocks. */
  ghost predicate HasSpare(s: Disk, dir: Home) {
    exists n: nat, k: nat :: n < Size(s, dir) / BY2BLK && k < FILE2BLK && Unnamed(s, ChildAt(s, dir, n, k))
  }

  /** How many blocks a new struct File in the directory takes. */
  ghost function DirNeeds(s: Disk, dir: Home): nat {
    if HasSpare(s, dir) then 0 else BlocksNeeded(s, dir, Size(s, dir) / BY2BLK, 1)
  }

  lemma SpareFound(img: Image, dir: Home)
    requires BuildOk(img) && dir in img.dirs
    ensures ScanFor(img, dir, 0, Size(Now(img), dir) / BY2BLK).Some? <==> HasSpare(Now(img), dir)
  {
    assert HomeOk(Now(img), dir);
    FullShows(Now(img), dir);
    var nblk := Size(Now(img), dir) / BY2BLK;
    ScanForFinds(img, dir, 0, nblk);
    var found := ScanFor(img, dir, 0, nblk);
    if found.Some? {
      var n: nat, k: nat :|
        n < nblk && k < FILE2BLK && Shows(Now(img), dir, n) && found.value == ChildAt(Now(img), dir, n, k);
      assert Unnamed(Now(img), ChildAt(Now(img), dir, n, k));
    }
  }

  lemma CreateSucceeds(img: Image, dir: Home)
    requires BuildOk(img) && dir in img.dirs
    ensures InImage(dir)
    ensures var r := CreateFile(img, dir); var s := Now(img);
      && (r.Some? <==>
            (HasSpare(s, dir) || Size(s, dir) / BY2BLK < NINDIRECT) && img.next + DirNeeds(s, dir) <= NBLOCK)
      && (r.Some? ==> r.value.0.next == img.next + DirNeeds(s, dir))
  {
    InUseBefore(img, dir);
    SpareFound(img, dir);
    assert HomeOk(Now(img), dir);
    var n := Size(Now(img), dir) / BY2BLK;
    OneMoreCount(Size(Now(img), dir));
    BlankNext(img, dir, n);
    AddBlockSucceeds(img, dir, n, ZeroWords());
  }

  /** The builder puts an item into the image exactly if the item's directory has been made, and
      has an unused struct File or can get a block of them, the file is not larger than its
      block map, and there are as many blocks left as that takes; these it uses. */
  lemma PutSucceedsExactlyWhen(img: Image, item: Item)
    requires BuildOk(img)
    ensures var r, s := PutItem(img, item), Now(img);
      var file := if item.PutFile? then |item.chunks| + (if |item.chunks| > NDIRECT then 1 else 0) else 0;
      && (r.Some? <==>
            && item.dir in img.dirs && (HasSpare(s, item.dir) || Size(s, item.dir) / BY2BLK < NINDIRECT)
            && (item.PutFile? ==> |item.chunks| == BlocksFor(item.size) <= NINDIRECT)
            && img.next + DirNeeds(s, item.dir) + file <= NBLOCK)
      && (r.Some? ==> r.value.0.next == img.next + DirNeeds(s, item.dir) + file)
  {
    if item.dir in img.dirs {
      CreateSucceeds(img, item.dir);
      CreateKeeps(img, item.dir);
      var r := CreateFile(img, item.dir);
      if r.Some? {
        PutSucceeds(img, item, r.value.0, r.value.1);
      }
    }
  }

  lemma PutSucceeds(img: Image, item: Item, img1: Image, f: Home)
    requires BuildOk(img1) && Proper(img) && item.dir in img.dirs && InImage(item.dir)
    requires CreateFile(img, item.dir) == Some((img1, f)) && IsHome(Now(img1), f) && Unnamed(Now(img1), f)
    ensures var r := PutItem(img, item);
      var file := if item.PutFile? then |item.chunks| + (if |item.chunks| > NDIRECT then 1 else 0) else 0;
      && (r.Some? <==>
            && (item.PutFile? ==> |item.chunks| == BlocksFor(item.size) <= NINDIRECT) && img1.next + file <= NBLOCK)
      && (r.Some? ==> r.value.0.next == img1.next + file)
  {
    InUseBefore(img1, f);
    if item.PutFile? {
      FileSucceeds(img1, f, item.name, item.size, item.chunks);
    }
  }

  lemma FileSucceeds(img: Image, f: Home, name: Name, size: nat, chunks: seq<Words>)
    requires BuildOk(img) && IsHome(Now(img), f) && Unnamed(Now(img), f)
    ensures InImage(f)
    ensures var r := AddBlocks(PutHead(img, f, name, size, FTYPE_REG), f, 0, chunks);
      var file := |chunks| + (if |chunks| > NDIRECT then 1 else 0);
      && (r.Some? <==> |chunks| <= NINDIRECT && img.next + file <= NBLOCK)
      && (r.Some? ==> r.value.next == img.next + file)
  {
    InUseBefore(img, f);
    assert HomeOk(Now(img), f);
    HeadKeeps(img, f, name, size, FTYPE_REG);
    HeadFile(img, f, name, size, FTYPE_REG);
    AddBlocksSucceeds(PutHead(img, f, name, size, FTYPE_REG), f, 0, chunks);
  }

  // ---------- builder and server agree ----------

  lemma InitRoot(s: Disk)
    requires |s.data| == NBLOCK && s.data[ROOT.b] == SuperBlock()
    ensures IsDir(s, ROOT) && Size(s, ROOT) == 0 && Barren(s, ROOT) && !Unnamed(s, ROOT)
    ensures forall h :: IsHome(s, h) <==> h == ROOT
  {
    forall i: nat | DIRECT_WORD <= i <= INDIRECT_WORD ensures Field(s, ROOT, i) == 0 {
    }
    RootIsHome(s);
    forall h | IsHome(s, h) ensures h == ROOT {
      var path :| Follow(s, path) == Some(h);
      LoneRoot(s, path);
    }
  }

  lemma InitBuildOk()
    ensures BuildOk(InitImage())
  {
    InitRoot(Now(InitImage()));
    InitReady(InitImage());
  }

  lemma InitReady(img: Image)
    requires Proper(img) && img.next == 3 && Blank(img)
    requires Barren(Now(img), ROOT) && forall h | IsHome(Now(img), h) :: h == ROOT
    ensures Ready(img)
  {
    Bits(img);
    assert forall r, b: nat :: !Owner(Now(img), r, b);
  }

  /** An image that was built is a file system in order, in which exactly the blocks from
      nextbno on are free, no block in use is without an owner, no file has blocks beyond its
      size, every directory has all its blocks, and struct Files without a name are empty. */
  lemma BuiltImage(items: seq<Item>)
    ensures var r := Build(InitImage(), items);
      r.Some? ==>
        var s := Served(r.value, 0);
        && FsOk(s) && NoLeaks(s)
        && (forall b: nat :: BlockIsFree(s, b) <==> r.value.next <= b < NBLOCK)
        && forall f | IsHome(s, f) :: HomeOk(s, f)
  {
    InitBuildOk();
    BuildKeeps(InitImage(), items);
    var r := Build(InitImage(), items);
    if r.Some? {
      Bits(r.value);
    }
  }

  lemma ServedMaps(img: Image, pages: nat, f: Home, k: nat)
    requires Proper(img) && InImage(f) && k < NINDIRECT && At(Now(img), Slot(f, k)) != 0
    ensures Sized(Served(img, pages))
    ensures var (s, b) := FileMapBlock(Served(img, pages), f, k, false);
      b == At(Now(img), Slot(f, k)) && s.data == img.blocks && s.bitmap == Now(img).bitmap
  {
    ServedBits(img, pages, 0);
    var s := Served(img, pages);
    assert At(s, Slot(f, k)) == At(Now(img), Slot(f, k)) && At(s, Indirect(f)) == At(Now(img), Indirect(f));
    var s1 := FileBlockWalk(s, f, k, false).0;
    assert At(s1, Slot(f, k)) == At(s, Slot(f, k));
  }

  /** The server's file_map_block leads from chunk k of the file of item i to the block with the
      contents that the builder read for it, and its read_block does not panic. */
  lemma ServerFindsChunks(items: seq<Item>, i: nat, k: nat, pages: nat)
    requires i < |items| && items[i].PutFile? && k < |items[i].chunks|
    ensures var r, f := Build(InitImage(), items), FileOf(InitImage(), items, i);
      r.Some? ==> (
        && f.Some? && Sized(Served(r.value, pages)) && IsHome(Served(r.value, pages), f.value) && InImage(f.value)
        && var (s, b) := FileMapBlock(Served(r.value, pages), f.value, k, false);
        && 0 < b < |s.data| && Sized(s) && !BlockIsFree(s, b) && s.data[b] == items[i].chunks[k])
  {
    InitBuildOk();
    BuildHolds(InitImage(), items, i);
    var r := Build(InitImage(), items);
    if r.Some? {
      HeldIsServed(r.value, FileOf(InitImage(), items, i).value, items[i].chunks, k, pages);
    }
  }

  lemma HeldIsServed(img: Image, f: Home, chunks: seq<Words>, k: nat, pages: nat)
    requires Ready(img) && Holds(img, f, chunks) && k < |chunks|
    ensures Sized(Served(img, pages)) && IsHome(Served(img, pages), f) && InImage(f)
    ensures var (s, b) := FileMapBlock(Served(img, pages), f, k, false);
      0 < b < |s.data| && Sized(s) && !BlockIsFree(s, b) && s.data[b] == chunks[k]
  {
    InUseBefore(img, f);
    assert HoldsAt(img, f, k, chunks[k]);
    ServedMaps(img, pages, f, k);
    SameDataSame(Now(img), Served(img, pages));
    Bits(img);
  }
}
