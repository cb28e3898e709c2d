/** fs/fs.c in its own form: the bitmap and the cached blocks, struct Files included, are updated
    in place.  Each method is tied to the function of FileBlocks, BlockMaps or Directories that
    says what it does. */
module FileServer {
  import opened Mmu
  import opened Bitmaps
  import opened FileTree
  import opened FileBlocks
  import opened Directories

  /** A pointer to a word of a block. */
  datatype Ptr = Ptr(b: nat, w: nat)

  class Server {
    const bitmap: array<BitWord>
    const blocks: array<Words>
    var cached: set<nat>
    var pages: nat

    ghost function Repr(): set<object> { {this, bitmap, blocks} }

    ghost function State(): Disk
      reads Repr()
    {
      Disk(bitmap[..], blocks[..], cached, pages)
    }

    ghost predicate Valid()
      reads Repr()
    {
      Sized(State())
    }

    /** f points into a block that is mapped in the cache. */
    predicate IsFile(f: Home)
      reads this
    {
      f.b < blocks.Length && f.w + FILE_WORDS <= NINDIRECT && f.b in cached
    }

    constructor (bitmap: array<BitWord>, blocks: array<Words>, pages: nat)
      requires Sized(Disk(bitmap[..], blocks[..], {}, pages))
      ensures Valid() && State() == Disk(bitmap[..], blocks[..], {}, pages)
      ensures this.bitmap == bitmap && this.blocks == blocks
    {
      this.bitmap, this.blocks, this.pages, this.cached := bitmap, blocks, pages, {};
    }

    function Word(f: Home, i: nat): nat
      requires IsFile(f) && i < FILE_WORDS
      reads this, blocks
    {
      blocks[f.b][f.w + i]
    }

    method SetWord(f: Home, i: nat, v: nat)
      requires Valid() && IsFile(f) && i < FILE_WORDS
      modifies blocks
      ensures Valid() && State() == SetField(old(State()), f, i, v)
    {
      blocks[f.b] := blocks[f.b][f.w + i := v];
    }

    method FreeBlock(b: nat)
      requires Valid()
      modifies bitmap
      ensures Valid() && State() == FileBlocks.FreeBlock(old(State()), b)
    {
      if b == 0 || b >= blocks.Length {
        return;
      }
      bitmap[b / BITS] := bitmap[b / BITS][b % BITS := true];
    }

    /** alloc_block_num. */
    method AllocBlockNum() returns (r: int)
      requires Valid()
      modifies bitmap
      ensures Valid() && (State(), r) == FileBlocks.AllocBlockNum(old(State()))
    {
      var b: nat := 3;
      while b < blocks.Length
        invariant 3 <= b && (3 <= blocks.Length ==> b <= blocks.Length)
        invariant State() == old(State())
        invariant 3 <= blocks.Length ==> FirstFree(State(), b) == FirstFree(State(), 3)
      {
        if bitmap[b / BITS][b % BITS] {
          bitmap[b / BITS] := bitmap[b / BITS][b % BITS := false];
          return b;
        }
        b := b + 1;
      }
      return -E_NO_DISK;
    }

    method MapBlock(b: nat) returns (r: int)
      requires Valid() && b < blocks.Length
      modifies this, blocks
      ensures Valid() && (State(), r) == FileBlocks.MapBlock(old(State()), b)
    {
      if b in cached {
        return 0;
      }
      if pages == 0 {
        return -E_NO_MEM;
      }
      cached := cached + {b};
      blocks[b] := ZeroWords();
      pages := pages - 1;
      return 0;
    }

    method AllocBlock() returns (r: int)
      requires Valid()
      modifies this, bitmap, blocks
      ensures Valid() && (State(), r) == FileBlocks.AllocBlock(old(State()))
    {
      var b := AllocBlockNum();
      if b < 0 {
        return b;
      }
      r := MapBlock(b);
      if r < 0 {
        FreeBlock(b);
        return r;
      }
      return b;
    }

    predicate Points(p: Ptr) { p.b < blocks.Length && p.w < NINDIRECT }

    function Load(p: Ptr): nat
      requires Points(p)
      reads blocks
    {
      blocks[p.b][p.w]
    }

    /** read_block does not panic over the indirect block of f. */
    ghost predicate Readable(f: Home)
      reads Repr()
    {
      At(State(), Indirect(f)) < blocks.Length
    }

    /** p is the pointer that file_block_walk leaves for block n of file f. */
    ghost predicate SlotPtr(p: Ptr, f: Home, n: nat)
      requires IsFile(f)
      reads this, blocks
    {
      && n < NINDIRECT
      && p == (if n < NDIRECT then Ptr(f.b, f.w + (DIRECT_WORD + n)) else Ptr(Word(f, INDIRECT_WORD), n))
      && (n >= NDIRECT ==> 0 < Word(f, INDIRECT_WORD) < blocks.Length)
    }

    method StoreAt(p: Ptr, v: nat, f: Home, n: nat)
      requires Valid() && IsFile(f) && SlotPtr(p, f, n)
      modifies blocks
      ensures Valid() && State() == Store(old(State()), f, n, v)
    {
      blocks[p.b] := blocks[p.b][p.w := v];
    }

    method FileBlockWalk(f: Home, n: nat, alloc: bool) returns (p: Ptr, r: int)
      requires Valid() && IsFile(f) && Readable(f)
      modifies Repr()
      ensures Valid() && IsFile(f) && (State(), r) == FileBlocks.FileBlockWalk(old(State()), f, n, alloc)
      ensures r == 0 ==> SlotPtr(p, f, n) && p.b in cached && Load(p) == At(State(), Slot(f, n))
    {
      p, r := Ptr(f.b, f.w), 0;
      if n < NDIRECT {
        return Ptr(f.b, f.w + (DIRECT_WORD + n)), 0;
      }
      if n >= NINDIRECT {
        return p, -E_INVAL;
      }
      if Word(f, INDIRECT_WORD) == 0 {
        if !alloc {
          return p, -E_NOT_FOUND;
        }
        var b := AllocBlock();
        if b < 0 {
          return p, b;
        }
        SetWord(f, INDIRECT_WORD, b);
      }
      cached := cached + {Word(f, INDIRECT_WORD)};
      p := Ptr(Word(f, INDIRECT_WORD), n);
    }

    /** A new block for *p, in file_map_block. */
    method FillSlot(p: Ptr, f: Home, n: nat) returns (r: int)
      requires Valid() && IsFile(f) && SlotPtr(p, f, n) && p.b in cached && Readable(f)
      modifies Repr()
      ensures Valid() && IsFile(f) && Readable(f)
      ensures (State(), r) == FileBlocks.FillSlot(old(State()), f, n)
    {
      r := AllocBlock();
      if r >= 0 {
        StoreAt(p, r, f, n);
      }
    }

    method FileMapBlock(f: Home, n: nat, alloc: bool) returns (r: int)
      requires Valid() && IsFile(f) && Readable(f)
      modifies Repr()
      ensures Valid() && IsFile(f) && Readable(f)
      ensures (State(), r) == FileBlocks.FileMapBlock(old(State()), f, n, alloc)
    {
      var p;
      p, r := FileBlockWalk(f, n, alloc);
      if r < 0 {
        return;
      }
      if Load(p) == 0 {
        if !alloc {
          return -E_NOT_FOUND;
        }
        r := FillSlot(p, f, n);
        return;
      }
      return Load(p);
    }

    /** The indirect block of f exists, and f is not in it. */
    ghost predicate Proper(f: Home)
      reads Repr()
    {
      Readable(f) && At(State(), Indirect(f)) != f.b
    }

    method FileClearBlock(f: Home, n: nat)
      requires Valid() && IsFile(f) && Proper(f)
      modifies Repr()
      ensures Valid() && IsFile(f) && Proper(f) && State() == FileBlocks.FileClearBlock(old(State()), f, n)
    {
      var p, r := FileBlockWalk(f, n, false);
      if r < 0 {
        return;
      }
      if Load(p) != 0 {
        FreeBlock(Load(p));
        StoreAt(p, 0, f, n);
      }
    }

    /** The loop of file_truncate, which it has in both its branches. */
    method ClearFrom(f: Home, lo: nat, hi: nat)
      requires Valid() && IsFile(f) && Proper(f)
      modifies Repr()
      ensures Valid() && IsFile(f) && State() == FileBlocks.ClearFrom(old(State()), f, lo, hi)
    {
      var n := lo;
      while n < hi
        invariant Valid() && IsFile(f) && Proper(f) && lo <= n
        invariant FileBlocks.ClearFrom(State(), f, n, hi) == FileBlocks.ClearFrom(old(State()), f, lo, hi)
      {
        FileClearBlock(f, n);
        n := n + 1;
      }
    }

    method FileTruncate(f: Home, size: nat)
      requires Valid() && IsFile(f) && Proper(f)
      modifies Repr()
      ensures Valid() && IsFile(f) && State() == FileBlocks.FileTruncate(old(State()), f, size)
    {
      var oldBlocks, newBlocks := BlockCount(Word(f, SIZE_WORD)), BlockCount(size);
      if size == 0 {
        newBlocks := 0;
      }
      if newBlocks <= NDIRECT {
        ClearFrom(f, newBlocks, oldBlocks);
        if Word(f, INDIRECT_WORD) != 0 {
          FreeBlock(Word(f, INDIRECT_WORD));
          SetWord(f, INDIRECT_WORD, 0);
        }
      } else {
        ClearFrom(f, newBlocks, oldBlocks);
      }
      SetWord(f, SIZE_WORD, size);
    }

    method FileSetSize(f: Home, size: nat)
      requires Valid() && IsFile(f) && Proper(f)
      modifies Repr()
      ensures Valid() && State() == Directories.FileSetSize(old(State()), f, size)
    {
      if Word(f, SIZE_WORD) > size {
        FileTruncate(f, size);
      }
      SetWord(f, SIZE_WORD, size);
    }

    /** file_remove, once walk_path has found f. */
    method FileRemove(f: Home)
      requires Valid() && IsFile(f) && Proper(f)
      modifies Repr()
      ensures Valid() && State() == Directories.FileRemove(old(State()), f)
    {
      FileTruncate(f, 0);
      SetWord(f, 0, Word(f, 0) / 256 * 256);
    }

    method FileGetBlock(f: Home, n: nat) returns (r: int)
      requires Valid() && IsFile(f) && Readable(f)
      modifies Repr()
      ensures Valid() && IsFile(f) && Readable(f)
      ensures (State(), r) == Directories.FileGetBlock(old(State()), f, n)
    {
      r := FileMapBlock(f, n, true);
      if r >= 0 {
        cached := cached + {r};
      }
    }

    /** The inner loop of dir_alloc_file. */
    method FindUnnamed(b: nat) returns (j: nat)
      requires Valid() && b < blocks.Length
      ensures j == Directories.FindUnnamed(State(), b, 0)
    {
      j := 0;
      while j < FILE2BLK
        invariant j <= FILE2BLK && Directories.FindUnnamed(State(), b, j) == Directories.FindUnnamed(State(), b, 0)
      {
        if blocks[b][FILE_WORDS * j] % 256 == 0 {
          return;
        }
        j := j + 1;
      }
    }

    /** The outer loop of dir_alloc_file. */
    method ScanDir(d: Home, nblock: nat) returns (file: Option<Home>, r: int)
      requires Valid() && IsFile(d) && Readable(d) && ScanReads(State(), d, 0, nblock)
      modifies Repr()
      ensures Valid() && IsFile(d) && Readable(d)
      ensures Found(State(), file, r) == Directories.ScanDir(old(State()), d, 0, nblock)
    {
      var i := 0;
      while i < nblock
        invariant Valid() && IsFile(d) && Readable(d) && ScanReads(State(), d, i, nblock)
        invariant Directories.ScanDir(State(), d, i, nblock) == Directories.ScanDir(old(State()), d, 0, nblock)
      {
        r := FileGetBlock(d, i);
        if r < 0 {
          return None, r;
        }
        var j := FindUnnamed(r);
        if j < FILE2BLK {
          return Some(Home(r, FILE_WORDS * j)), 0;
        }
        i := i + 1;
      }
      return None, 0;
    }

    /** The end of dir_alloc_file, when no block of the directory has a struct File to spare. */
    method MoreDir(d: Home, n: nat) returns (r: int)
      requires Valid() && IsFile(d) && Readable(d)
      modifies Repr()
      ensures Valid() && (State(), r) == Directories.MoreDir(old(State()), d, n)
    {
      SetWord(d, SIZE_WORD, Word(d, SIZE_WORD) + BY2BLK);
      assert State() == SetSize(old(State()), d, Size(old(State()), d) + BY2BLK);
      r := FileGetBlock(d, n);
    }

    method DirAllocFile(d: Home) returns (file: Option<Home>, r: int)
      requires Valid() && IsFile(d) && Readable(d) && ScanReads(State(), d, 0, Word(d, SIZE_WORD) / BY2BLK)
      modifies Repr()
      ensures Valid() && Found(State(), file, r) == Directories.DirAllocFile(old(State()), d)
    {
      var nblock := Word(d, SIZE_WORD) / BY2BLK;
      file, r := ScanDir(d, nblock);
      if r < 0 || file.Some? {
        return;
      }
      r := MoreDir(d, nblock);
      if r < 0 {
        return;
      }
      return Some(Home(r, 0)), 0;
    }
  }
}
