/** tools/fsformat.c in its own form: the disk, its bitmap and nextbno are updated in place.
    Each method is tied to the function of ImageBuilder that says what it does. */
module ImageWriter {
  import opened Bitmaps
  import opened FileTree
  import opened Directories
  import opened ImageBuilder

  class Writer {
    const blocks: array<Words>
    const bitmap: array<BitWord>
    var next: nat
    ghost var dirs: set<Home>

    ghost function State(): Image
      reads this, blocks
    {
      Image(blocks[..], next, dirs)
    }

    ghost predicate Valid()
      reads this, blocks
    {
      Proper(State())
    }

    /** init_disk. */
    constructor ()
      ensures Valid() && fresh(blocks) && fresh(bitmap)
      ensures State() == InitImage() && bitmap[..] == InitBitmap(NBLOCK)
    {
      blocks := new Words[NBLOCK](_ => ZeroWords());
      bitmap := new BitWord[BitmapBlocks(NBLOCK) * (BIT2BLK / BITS)](_ => Zeros());
      dirs, next := {ROOT}, 2 + BitmapBlocks(NBLOCK);
      new;
      ghost var zeros := bitmap[..];
      assert zeros == seq(BitmapBlocks(NBLOCK) * (BIT2BLK / BITS), _ => Zeros());
      Memset(0, BitmapBlocks(NBLOCK) * BY2BLK, true);
      if NBLOCK != BitmapBlocks(NBLOCK) * BIT2BLK {
        Memset(TailByte(NBLOCK), BitmapBlocks(NBLOCK) * BY2BLK, false);
      }
      blocks[ROOT.b] := SuperBlock();
      assert blocks[..] == InitImage().blocks;
    }

    /** memset on the bitmap, whose bytes are those of its words in order. */
    method Memset(lo: nat, hi: nat, ones: bool)
      requires lo <= hi && hi * 8 <= bitmap.Length * BITS
      modifies bitmap
      ensures bitmap[..] == ImageBuilder.Memset(old(bitmap[..]), lo, hi, ones)
    {
      var i: nat := lo * 8;
      while i < hi * 8
        invariant lo * 8 <= i <= hi * 8
        invariant forall n: nat | n / BITS < bitmap.Length ::
          Has(bitmap[..], n) == if lo * 8 <= n < i then ones else Has(old(bitmap[..]), n)
      {
        ghost var before := bitmap[..];
        bitmap[i / BITS] := bitmap[i / BITS][i % BITS := ones];
        assert bitmap[..] == if ones then SetBit(before, i) else ClearBit(before, i);
        forall n: nat | n / BITS < bitmap.Length ensures Has(bitmap[..], n) == if n == i then ones else Has(before, n) {
          SetBitMembers(before, i, n);
          ClearBitMembers(before, i, n);
        }
        i := i + 1;
      }
      SameBits(bitmap[..], ImageBuilder.Memset(old(bitmap[..]), lo, hi, ones));
    }

    method FlushBitmap()
      requires next <= bitmap.Length * BITS
      modifies bitmap
      ensures bitmap[..] == FlushFrom(old(bitmap[..]), 0, next)
    {
      var i: nat := 0;
      while i < next
        invariant i <= next
        invariant FlushFrom(bitmap[..], i, next) == FlushFrom(old(bitmap[..]), 0, next)
      {
        bitmap[i / BITS] := bitmap[i / BITS][i % BITS := false];
        i := i + 1;
      }
    }

    method NextBlock() returns (b: nat)
      modifies `next
      ensures b == old(next) && next == old(next) + 1
    {
      b := next;
      next := next + 1;
    }

    function Word(f: Home, i: nat): nat
      requires blocks.Length == NBLOCK && InImage(f) && i < FILE_WORDS
      reads blocks
    {
      blocks[f.b][f.w + i]
    }

    method SetWord(b: nat, w: nat, v: nat)
      requires Valid() && b < NBLOCK && w < NINDIRECT
      modifies blocks
      ensures Valid() && State() == PutWord(old(State()), b, w, v)
    {
      blocks[b] := blocks[b][w := v];
    }

    /** save_block_link; false where its assertion fails or the disk is full. */
    method SaveBlockLink(f: Home, n: nat, bno: nat) returns (ok: bool)
      requires Valid() && InImage(f)
      modifies blocks, `next
      ensures ok <==> ImageBuilder.SaveBlockLink(old(State()), f, n, bno).Some?
      ensures ok ==> Valid() && State() == ImageBuilder.SaveBlockLink(old(State()), f, n, bno).value
    {
      if n >= NINDIRECT {
        return false;
      }
      if n < NDIRECT {
        SetWord(f.b, f.w + (DIRECT_WORD + n), bno);
        return true;
      }
      var index := Word(f, INDIRECT_WORD);
      if index == 0 {
        if next >= NBLOCK {
          return false;
        }
        index := NextBlock();
        SetWord(f.b, f.w + INDIRECT_WORD, index);
      }
      if index >= NBLOCK {
        return false;
      }
      SetWord(index, n, bno);
      return true;
    }

    method LinkNext(f: Home, n: nat) returns (ok: bool)
      requires Valid() && InImage(f)
      modifies blocks, `next
      ensures ok <==> ImageBuilder.LinkNext(old(State()), f, n).Some?
      ensures ok ==> Valid() && State() == ImageBuilder.LinkNext(old(State()), f, n).value
    {
      if next >= NBLOCK {
        return false;
      }
      var b := NextBlock();
      ok := SaveBlockLink(f, n, b);
    }

    /** A block's worth of data read into the next block, which becomes block n of file f. */
    method AddBlock(f: Home, n: nat, words: Words) returns (ok: bool)
      requires Valid() && InImage(f)
      modifies blocks, `next
      ensures ok <==> ImageBuilder.AddBlock(old(State()), f, n, words).Some?
      ensures ok ==> Valid() && State() == ImageBuilder.AddBlock(old(State()), f, n, words).value
    {
      if next >= NBLOCK {
        return false;
      }
      blocks[next] := words;
      ok := LinkNext(f, n);
    }

    method MakeLinkBlock(dir: Home) returns (ok: bool)
      requires Valid() && InImage(dir)
      modifies blocks, `next
      ensures ok <==> ImageBuilder.MakeLinkBlock(old(State()), dir).Some?
      ensures ok ==> Valid() && State() == ImageBuilder.MakeLinkBlock(old(State()), dir).value
    {
      ok := LinkNext(dir, Word(dir, SIZE_WORD) / BY2BLK);
      if ok {
        SetWord(dir.b, dir.w + SIZE_WORD, Word(dir, SIZE_WORD) + BY2BLK);
      }
    }

    /** The number of block i of the directory. */
    method BlockOf(dir: Home, i: nat) returns (b: nat)
      requires Valid() && InImage(dir)
      ensures b == At(Now(State()), Slot(dir, i))
    {
      if i < NDIRECT {
        return Word(dir, DIRECT_WORD + i);
      }
      var index := Word(dir, INDIRECT_WORD);
      if 0 < index < NBLOCK && i < NINDIRECT {
        return blocks[index][i];
      }
      return 0;
    }

    /** The inner loop of create_file. */
    method FindUnnamed(b: nat) returns (j: nat)
      requires Valid()
      ensures j == Directories.FindUnnamed(Now(State()), b, 0)
    {
      j := 0;
      while j < FILE2BLK
        invariant j <= FILE2BLK
        invariant Directories.FindUnnamed(Now(State()), b, j) == Directories.FindUnnamed(Now(State()), b, 0)
      {
        if b >= NBLOCK || blocks[b][FILE_WORDS * j] % 256 == 0 {
          return;
        }
        j := j + 1;
      }
    }

    method CreateFile(dir: Home) returns (f: Home, ok: bool)
      requires Valid() && InImage(dir)
      modifies blocks, `next
      ensures ok <==> ImageBuilder.CreateFile(old(State()), dir).Some?
      ensures ok ==> Valid() && (State(), f) == ImageBuilder.CreateFile(old(State()), dir).value
    {
      var nblk := Word(dir, SIZE_WORD) / BY2BLK;
      var i := 0;
      while i < nblk
        invariant Valid() && State() == old(State())
        invariant ScanFor(State(), dir, i, nblk) == ScanFor(State(), dir, 0, nblk)
      {
        var b := BlockOf(dir, i);
        var j := FindUnnamed(b);
        if j < FILE2BLK {
          return Home(b, FILE_WORDS * j), true;
        }
        i := i + 1;
      }
      f := Home(next, 0);
      ok := MakeLinkBlock(dir);
    }

    /** strcpy of the name, the size and the kind of a new file. */
    method PutHead(f: Home, name: Name, size: nat, kind: nat)
      requires Valid() && InImage(f)
      modifies blocks
      ensures Valid() && State() == ImageBuilder.PutHead(old(State()), f, name, size, kind)
    {
      var words := blocks[f.b];
      blocks[f.b] := words[..f.w] + (name + [size, kind]) + words[f.w + DIRECT_WORD..];
    }

    /** The loop of write_file. */
    method AddBlocks(f: Home, chunks: seq<Words>) returns (ok: bool)
      requires Valid() && InImage(f)
      modifies blocks, `next
      ensures ok <==> ImageBuilder.AddBlocks(old(State()), f, 0, chunks).Some?
      ensures ok ==> Valid() && State() == ImageBuilder.AddBlocks(old(State()), f, 0, chunks).value
    {
      var iblk: nat := 0;
      while iblk < |chunks|
        invariant iblk <= |chunks| && Valid()
        invariant ImageBuilder.AddBlocks(State(), f, iblk, chunks[iblk..])
          == ImageBuilder.AddBlocks(old(State()), f, 0, chunks)
      {
        ok := AddBlock(f, iblk, chunks[iblk]);
        if !ok {
          return false;
        }
        iblk := iblk + 1;
      }
      return true;
    }

    /** write_file, or the part of write_directory before its loop. */
    method PutItem(item: Item) returns (f: Home, ok: bool)
      requires Valid() && item.dir in dirs && InImage(item.dir)
      requires item.PutFile? ==> |item.chunks| == BlocksFor(item.size)
      modifies this, blocks
      ensures ok <==> ImageBuilder.PutItem(old(State()), item).Some?
      ensures ok ==> Valid() && (State(), f) == ImageBuilder.PutItem(old(State()), item).value
    {
      f, ok := CreateFile(item.dir);
      if !ok || !(f.b < NBLOCK && f.w + FILE_WORDS <= NINDIRECT) {
        return f, false;
      }
      match item
      case PutDir(_, name) =>
        PutHead(f, name, Word(f, SIZE_WORD), FTYPE_DIR);
        dirs := dirs + {f};
      case PutFile(_, name, size, chunks) =>
        PutHead(f, name, size, FTYPE_REG);
        ok := AddBlocks(f, chunks);
    }
  }

  lemma SameBits(a: seq<BitWord>, b: seq<BitWord>)
    requires |a| == |b| && forall n: nat | n / BITS < |a| :: Has(a, n) == Has(b, n)
    ensures a == b
  {
    forall w: nat | w < |a| ensures a[w] == b[w] {
      forall i: nat | i < BITS ensures a[w][i] == b[w][i] {
        assert (w * BITS + i) / BITS == w && (w * BITS + i) % BITS == i;
        assert Has(a, w * BITS + i) == Has(b, w * BITS + i);
      }
    }
  }
}
