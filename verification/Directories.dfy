/** Directories: sizes, removal, new struct Files, and what clients may write to blocks that they
    have mapped (fs/fs.c, fs/serv.c). */
module Directories {
  import opened Mmu
  import opened FileTree
  import opened FileBlocks
  import opened BlockMaps

  // ---------- file_set_size ----------

  function FileSetSize(s: Disk, f: Home, size: nat): Disk
    requires Sized(s) && IsPtr(s, f)
  {
    SetSize(if Size(s, f) > size then FileTruncate(s, f, size) else s, f, size)
  }

  /** f's own struct File is not in one of its blocks. */
  lemma NoOwnBlock(s: Disk, f: Home, n: nat)
    requires FsOk(s) && IsHome(s, f) && n < NINDIRECT && At(s, Slot(f, n)) != 0
    ensures At(s, Slot(f, n)) != f.b
  {
    assert Owner(s, Slot(f, n), At(s, Slot(f, n))) && InUse(s, At(s, Slot(f, n)));
    if f != ROOT {
      var d, m, k := Parent(s, f);
      assert Owner(s, Slot(d, m), f.b);
    }
  }

  /** The files in the blocks that a directory of `size` bytes would come to show have no blocks. */
  ghost predicate NewChildrenBarren(s: Disk, f: Home, size: nat) {
    forall n: nat, k: nat | IsDir(s, f) && Size(s, f) / BY2BLK <= n < size / BY2BLK && n < NINDIRECT
      && At(s, Slot(f, n)) != 0 && k < FILE2BLK :: Barren(s, ChildAt(s, f, n, k))
  }

  lemma BarrenSame(s: Disk, s': Disk, c: Home)
    requires |s'.data| == |s.data| && (c.b < |s.data| ==> s'.data[c.b] == s.data[c.b])
    ensures Barren(s', c) ==> Barren(s, c)
  {
    assert forall i: nat :: Field(s', c, i) == Field(s, c, i);
    if Barren(s', c) {
      forall n: nat | n < NINDIRECT ensures At(s, Slot(c, n)) == 0 {
        assert At(s', Slot(c, n)) == 0 && At(s', Indirect(c)) == 0;
      }
    }
  }

  lemma SetSizeGrows(s: Disk, s': Disk, f: Home, size: nat)
    requires FsOk(s) && IsHome(s, f) && Sizes(s, s', f, size) && size >= Size(s, f)
    ensures Grows(s, s', f)
    ensures NewChildrenBarren(s, f, size) ==> MoreIsBarren(s, s', f)
  {
    SizesOthers(s, s', f, size);
    assert size / BY2BLK >= Size(s, f) / BY2BLK;
    if NewChildrenBarren(s, f, size) {
      forall n: nat, k: nat | Shows(s', f, n) && !Shows(s, f, n) && k < FILE2BLK
        ensures Barren(s', ChildAt(s', f, n, k))
      {
        NoOwnBlock(s, f, n);
        BarrenSame(s', s, ChildAt(s, f, n, k));
      }
    }
  }

  lemma GrowKeepsOk(s: Disk, f: Home, size: nat)
    requires FsOk(s) && IsHome(s, f) && size >= Size(s, f) && NewChildrenBarren(s, f, size)
    ensures IsPtr(s, f) && FsOk(SetSize(s, f, size)) && (NoLeaks(SetSize(s, f, size)) <==> NoLeaks(s))
    ensures forall r, b: nat :: Owner(SetSize(s, f, size), r, b) <==> Owner(s, r, b)
  {
    SetSizeIs(s, f, size);
    var s' := SetSize(s, f, size);
    SetSizeGrows(s, s', f, size);
    GrowsKeepsOwners(s, s', f);
    GrowsNoOthers(s, s', f);
    forall r, b: nat ensures Owner(s', r, b) <==> Owner(s, r, b) {
      if r.f == f {
        assert SameMap(s, s', f);
      }
    }
    SameOwnersOk(s, s');
  }

  lemma GrowBreaks(s: Disk, f: Home, size: nat)
    requires FsOk(s) && NoLeaks(s) && IsHome(s, f) && size >= Size(s, f) && !NewChildrenBarren(s, f, size)
    ensures IsPtr(s, f) && !FsOk(SetSize(s, f, size))
  {
    SetSizeIs(s, f, size);
    var s' := SetSize(s, f, size);
    SetSizeGrows(s, s', f, size);
    GrowsKeepsOwners(s, s', f);
    var n: nat, k: nat :| IsDir(s, f) && Size(s, f) / BY2BLK <= n < size / BY2BLK && n < NINDIRECT
      && At(s, Slot(f, n)) != 0 && k < FILE2BLK && !Barren(s, ChildAt(s, f, n, k));
    var c := ChildAt(s, f, n, k);
    NoOwnBlock(s, f, n);
    BarrenSame(s, s', c);
    ChildIsHome(s', f, n, k);
    NotShownNoHome(s, f, n, c);
    var q := APointer(s', c);
    JunkBreaks(s, s', q, At(s', q));
  }

  lemma NotShownNoHome(s: Disk, f: Home, n: nat, c: Home)
    requires FsOk(s) && IsHome(s, f) && n < NINDIRECT && At(s, Slot(f, n)) != 0 && !Shows(s, f, n)
    requires c.b == At(s, Slot(f, n))
    ensures !IsHome(s, c)
  {
    assert Owner(s, Slot(f, n), c.b) && InUse(s, c.b);
    if IsHome(s, c) {
      var d, m, k := Parent(s, c);
      assert Owner(s, Slot(d, m), c.b);
    }
  }

  lemma ShrinkKeepsOk(s: Disk, f: Home, size: nat)
    requires FsOk(s) && IsHome(s, f) && size < Size(s, f)
    ensures IsPtr(s, f) && FsOk(FileSetSize(s, f, size))
  {
    TruncateDrops(s, f, size);
    SetSizeDrops(FileTruncate(s, f, size), f, size);
  }

  lemma ResizeKeepsOk(s: Disk, f: Home, size: nat)
    requires FsOk(s) && IsHome(s, f) && (size <= Size(s, f) || NewChildrenBarren(s, f, size))
    ensures IsPtr(s, f) && FsOk(FileSetSize(s, f, size))
  {
    HomePlace(s, f);
    if size < Size(s, f) {
      ShrinkKeepsOk(s, f, size);
    } else if size == Size(s, f) {
      SetSizeDrops(s, f, size);
    } else {
      GrowKeepsOk(s, f, size);
    }
  }

  /** file_set_size keeps a file system without leaks in order exactly when it does not make a
      directory show blocks, beyond its old size, whose words pass for files with blocks. */
  lemma ResizeKeepsOkExactly(s: Disk, f: Home, size: nat)
    requires FsOk(s) && NoLeaks(s) && IsHome(s, f)
    ensures IsPtr(s, f)
    ensures FsOk(FileSetSize(s, f, size)) <==> size <= Size(s, f) || NewChildrenBarren(s, f, size)
  {
    HomePlace(s, f);
    if size <= Size(s, f) || NewChildrenBarren(s, f, size) {
      ResizeKeepsOk(s, f, size);
    } else {
      GrowBreaks(s, f, size);
    }
  }

  /** All words of all struct Files other than f are the same. */
  ghost predicate OtherFilesSame(s: Disk, s': Disk, f: Home) {
    forall g, i: nat | IsHome(s, g) && g != f && i < FILE_WORDS :: Field(s', g, i) == Field(s, g, i)
  }

  lemma OnlyFileFields(s: Disk, s': Disk, f: Home)
    requires FsOk(s) && IsHome(s, f) && OnlyFile(s, s', f, At(s, Indirect(f)))
    ensures OtherFilesSame(s, s', f)
  {
    forall g, i: nat | IsHome(s, g) && g != f && i < FILE_WORDS ensures Field(s', g, i) == Field(s, g, i) {
      HomesApart(s, f, g);
      HomePlace(s, g);
      IndirectNoHome(s, f, g);
    }
  }

  /** file_set_size sets the size, of one struct File, and moves no block when it grows; when it
      shrinks, it is file_truncate. */
  lemma ResizeSets(s: Disk, f: Home, size: nat)
    requires FsOk(s) && IsHome(s, f)
    ensures IsPtr(s, f)
    ensures var s' := FileSetSize(s, f, size);
      && Size(s', f) == size && IsDir(s', f) == IsDir(s, f) && OtherFilesSame(s, s', f)
      && (size >= Size(s, f) ==> SameMap(s, s', f) && s'.bitmap == s.bitmap && s'.cached == s.cached)
      && (size < Size(s, f) ==> s' == FileTruncate(s, f, size))
  {
    HomePlace(s, f);
    if size < Size(s, f) {
      TruncateDrops(s, f, size);
      var s1 := FileTruncate(s, f, size);
      assert Field(s1, f, SIZE_WORD) == size;
      var words := s1.data[f.b];
      assert words[f.w + SIZE_WORD] == size && words[f.w + SIZE_WORD := size] == words;
      assert SetSize(s1, f, size).data == s1.data;
      OnlyFileFields(s, s1, f);
    } else {
      SetSizeIs(s, f, size);
      OnlyFileFields(s, SetSize(s, f, size), f);
    }
  }

  // ---------- what users write ----------

  /** A client's stores to block b.  serve_map has sent it the block for writing, as it does with
      any block of any file; the file may have lost the block since. */
  function WriteBlock(s: Disk, b: nat, words: Words): Disk
    requires b < |s.data|
  {
    s.(data := s.data[b := words])
  }

  /** b is block m of directory d, within its size. */
  ghost predicate FilesAt(s: Disk, d: Home, m: nat, b: nat) {
    IsHome(s, d) && Shows(s, d, m) && At(s, Slot(d, m)) == b
  }

  ghost predicate HoldsFiles(s: Disk, b: nat) {
    exists d, m: nat :: FilesAt(s, d, m, b)
  }

  ghost predicate IsIndex(s: Disk, b: nat) {
    exists g :: IsHome(s, g) && At(s, Indirect(g)) == b
  }

  /** The same files exist, and have the same blocks at the same places. */
  ghost predicate SameFiles(s: Disk, s': Disk) {
    && (forall g :: IsHome(s', g) <==> IsHome(s, g))
    && (forall g | IsHome(s, g) :: SameMap(s, s', g))
  }

  lemma WriteElsewhere(s: Disk, b: nat, words: Words, g: Home)
    requires b < |s.data| && g.b != b && At(s, Indirect(g)) != b
    ensures SameWords(s, WriteBlock(s, b, words), g)
  {
  }

  /** Stores to a block that holds neither struct Files nor block numbers change no block map. */
  lemma WriteDataKeeps(s: Disk, b: nat, words: Words)
    requires FsOk(s) && Meta(s) <= b < |s.data| && !HoldsFiles(s, b) && !IsIndex(s, b)
    ensures var s' := WriteBlock(s, b, words);
      FsOk(s') && (NoLeaks(s') <==> NoLeaks(s)) && SameFiles(s, s')
  {
    var s' := WriteBlock(s, b, words);
    forall g | IsHome(s, g) ensures SameMap(s, s', g) && SameView(s, s', g) {
      HomeElsewhere(s, b, g);
      WriteElsewhere(s, b, words, g);
      SameWordsSame(s, s', g);
    }
    SameOwners(s, s');
    SameOwnersOk(s, s');
  }

  lemma HomeElsewhere(s: Disk, b: nat, g: Home)
    requires IsHome(s, g) && Meta(s) <= b && !HoldsFiles(s, b)
    ensures g.b != b
  {
    if g != ROOT {
      var d, n, k := Parent(s, g);
      assert FilesAt(s, d, n, g.b);
    }
  }

  // ---------- stores to a directory's block ----------

  /** The struct Files in a directory's block b are reached through it only. */
  lemma FilesAtOnce(s: Disk, f: Home, n: nat, b: nat)
    requires FsOk(s) && FilesAt(s, f, n, b)
    ensures InUse(s, b) && b > 2 && !IsIndex(s, b)
    ensures forall d, m: nat | FilesAt(s, d, m, b) :: d == f && m == n
  {
    ShownOnce(s, f, n);
    assert Owner(s, Slot(f, n), b);
    forall g | IsHome(s, g) ensures At(s, Indirect(g)) != b {
      assert At(s, Indirect(g)) == b ==> Owner(s, Indirect(g), b);
    }
  }

  /** The way to f does not lead through a block that f itself has. */
  lemma {:induction false} AvoidsBlock(s: Disk, s': Disk, f: Home, n: nat, b: nat, path: seq<Step>)
    requires FsOk(s) && FilesAt(s, f, n, b) && Follow(s, path).Some?
    requires forall j: nat | j < |path| :: Follow(s, path[..j]) != Some(f)
    requires forall g | IsHome(s, g) && g.b != b :: SameView(s, s', g)
    ensures Follow(s', path) == Follow(s, path) && Follow(s, path).value.b != b
    decreases |path|
  {
    FilesAtOnce(s, f, n, b);
    if path != [] {
      var front, last := path[..|path| - 1], path[|path| - 1];
      assert forall j: nat | j < |front| :: front[..j] == path[..j];
      AvoidsBlock(s, s', f, n, b, front);
      var d := Follow(s, front).value;
      assert IsHome(s, d) && d != f;
      assert !FilesAt(s, d, last.n, b);
    }
  }

  lemma OwnerStays(s: Disk, f: Home, n: nat, b: nat, words: Words)
    requires FsOk(s) && FilesAt(s, f, n, b) && b < |s.data|
    ensures var s' := WriteBlock(s, b, words);
      FilesAt(s', f, n, b) && SameView(s, s', f)
  {
    var s' := WriteBlock(s, b, words);
    FilesAtOnce(s, f, n, b);
    forall g | IsHome(s, g) && g.b != b ensures SameView(s, s', g) {
      WriteElsewhere(s, b, words, g);
      SameWordsSame(s, s', g);
    }
    var path :| Follow(s, path) == Some(f);
    var short := FirstVisit(s, path, f);
    AvoidsBlock(s, s', f, n, b, short);
  }

  /** With 1 for the first block of the first file. */
  function BadWords(): Words { ZeroWords()[DIRECT_WORD := 1] }

  lemma BadChild(s: Disk, f: Home, n: nat, b: nat)
    requires FilesAt(s, f, n, b) && b < |s.data| && s.data[b] == BadWords()
    ensures Owner(s, Slot(Home(b, 0), 0), 1)
  {
    ChildIsHome(s, f, n, 0);
    assert ChildAt(s, f, n, 0) == Home(b, 0);
    assert Field(s, Home(b, 0), DIRECT_WORD) == 1;
  }

  lemma OwnsMeta(s: Disk, r: Ref, b: nat)
    requires Owner(s, r, b) && b < 3
    ensures !FsOk(s)
  {
  }

  lemma WriteDirBreaks(s: Disk, b: nat)
    requires FsOk(s) && HoldsFiles(s, b) && b < |s.data|
    ensures !FsOk(WriteBlock(s, b, BadWords()))
  {
    var f, n: nat :| FilesAt(s, f, n, b);
    OwnerStays(s, f, n, b, BadWords());
    BadChild(WriteBlock(s, b, BadWords()), f, n, b);
    OwnsMeta(WriteBlock(s, b, BadWords()), Slot(Home(b, 0), 0), 1);
  }

  /** With 1 for the first block that it lists. */
  function BadIndex(): Words { ZeroWords()[NDIRECT := 1] }

  lemma WriteIndexBreaks(s: Disk, b: nat)
    requires FsOk(s) && IsIndex(s, b) && 0 < b < |s.data|
    ensures !FsOk(WriteBlock(s, b, BadIndex()))
  {
    var s' := WriteBlock(s, b, BadIndex());
    var g :| IsHome(s, g) && At(s, Indirect(g)) == b;
    forall d | IsHome(s, d) && d != g ensures SameView(s, s', d) {
      IndirectNoHome(s, g, d);
      IndirectsApart(s, g, d);
      WriteElsewhere(s, b, BadIndex(), d);
      SameWordsSame(s, s', d);
    }
    ViewSym(s, s', g);
    StaysHome(s, s', g);
    IndirectNoHome(s, g, g);
    assert Field(s', g, INDIRECT_WORD) == b;
    assert Owner(s', Slot(g, NDIRECT), 1);
    OwnsMeta(s', Slot(g, NDIRECT), 1);
  }

  lemma ViewSym(s: Disk, s': Disk, g: Home)
    requires forall d | IsHome(s, d) && d != g :: SameView(s, s', d)
    ensures OthersSame(s', s, g)
  {
  }

  /** What a client writes to a block that it has been sent at any time keeps the file system in
      order, whatever it writes, exactly when the block is now neither one of those that a
      directory has up to its size nor an indirect block. */
  lemma WriteKeepsOk(s: Disk, b: nat)
    requires FsOk(s) && Meta(s) <= b < |s.data|
    ensures (forall words :: FsOk(WriteBlock(s, b, words))) <==> !HoldsFiles(s, b) && !IsIndex(s, b)
  {
    if HoldsFiles(s, b) {
      WriteDirBreaks(s, b);
    } else if IsIndex(s, b) {
      WriteIndexBreaks(s, b);
    } else {
      forall words ensures FsOk(WriteBlock(s, b, words)) {
        WriteDataKeeps(s, b, words);
      }
    }
  }

  /** For a block that its file still has, this is seen from the file: a client may write to it
      unless the file is a directory and the block lies within its size. */
  lemma WriteToFile(s: Disk, f: Home, n: nat, b: nat)
    requires FsOk(s) && IsHome(s, f) && n < NINDIRECT && 0 < At(s, Slot(f, n)) == b
    ensures Meta(s) <= b < |s.data|
    ensures HoldsFiles(s, b) || IsIndex(s, b) <==> IsDir(s, f) && n < Size(s, f) / BY2BLK
  {
    assert Owner(s, Slot(f, n), b) && InUse(s, b);
    forall g | IsHome(s, g) ensures At(s, Indirect(g)) != b {
      assert At(s, Indirect(g)) == b ==> Owner(s, Indirect(g), b);
    }
    if Shows(s, f, n) {
      assert FilesAt(s, f, n, b);
    }
    forall d, m: nat | FilesAt(s, d, m, b) ensures d == f && m == n {
      assert Owner(s, Slot(d, m), b);
    }
  }

  /** The k-th struct File of a directory's block has the same block numbers in it, and the same
      of its blocks hold struct Files. */
  ghost predicate SameEntry(s: Disk, s': Disk, c: Home) {
    SameMap(s, s', c) && forall n: nat :: Shows(s', c, n) <==> Shows(s, c, n)
  }

  lemma SameFilesShow(s: Disk, s': Disk, c: Home, m: nat)
    requires FsOk(s) && SameFiles(s, s') && IsHome(s, c) && Shows(s', c, m)
    ensures Shows(s, c, m)
  {
    var e := ChildAt(s', c, m, 0);
    ChildIsHome(s', c, m, 0);
    assert SameMap(s, s', c);
    if !Shows(s, c, m) {
      NotShownNoHome(s, c, m, e);
    }
  }

  lemma SameFilesShown(s: Disk, s': Disk, c: Home, m: nat)
    requires FsOk(s) && SameFiles(s, s') && IsHome(s, c) && Shows(s, c, m)
    ensures Shows(s', c, m)
  {
    var e := ChildAt(s, c, m, 0);
    ChildIsHome(s, c, m, 0);
    ShownOnce(s, c, m);
    assert Owner(s, Slot(c, m), e.b) && InUse(s, e.b);
    var d, j, k := Parent(s', e);
    assert SameMap(s, s', d);
    SameFilesShow(s, s', d, j);
  }

  /** For the block of a directory: what is written changes nothing about where any file's
      blocks are exactly when it leaves alone the block numbers in its struct Files, and which
      of their blocks hold struct Files in turn; names, and sizes of files, are free. */
  lemma WriteDirKeepsExactly(s: Disk, f: Home, n: nat, b: nat, words: Words)
    requires FsOk(s) && FilesAt(s, f, n, b) && b < |s.data|
    ensures var s' := WriteBlock(s, b, words);
      SameFiles(s, s') <==> forall k: nat | k < FILE2BLK :: SameEntry(s, s', ChildAt(s, f, n, k))
  {
    var s' := WriteBlock(s, b, words);
    if SameFiles(s, s') {
      forall k: nat | k < FILE2BLK ensures SameEntry(s, s', ChildAt(s, f, n, k)) {
        ChildIsHome(s, f, n, k);
        SameFilesEntry(s, s', ChildAt(s, f, n, k));
      }
    }
    if forall k: nat | k < FILE2BLK :: SameEntry(s, s', ChildAt(s, f, n, k)) {
      FilesAtOnce(s, f, n, b);
      forall g | IsHome(s, g) ensures SameMap(s, s', g) && SameView(s, s', g) {
        if g.b == b {
          InDirBlock(s, f, n, b, g);
        } else {
          WriteElsewhere(s, b, words, g);
          SameWordsSame(s, s', g);
        }
      }
      SameTree(s, s');
    }
  }

  lemma SameFilesEntry(s: Disk, s': Disk, c: Home)
    requires FsOk(s) && SameFiles(s, s') && IsHome(s, c)
    ensures SameEntry(s, s', c)
  {
    forall m: nat ensures Shows(s', c, m) <==> Shows(s, c, m) {
      if Shows(s', c, m) {
        SameFilesShow(s, s', c, m);
      }
      if Shows(s, c, m) {
        SameFilesShown(s, s', c, m);
      }
    }
  }

  lemma InDirBlock(s: Disk, f: Home, n: nat, b: nat, g: Home)
    requires FsOk(s) && FilesAt(s, f, n, b) && IsHome(s, g) && g.b == b
    ensures exists k: nat :: k < FILE2BLK && g == ChildAt(s, f, n, k)
  {
    FilesAtOnce(s, f, n, b);
    var d, m, k := Parent(s, g);
    assert FilesAt(s, d, m, b);
  }

  // ---------- names ----------

  /** A word of the struct File outside those that say where its blocks are: the server writes
      f_name and f_dir. */
  predicate IsLabel(i: nat) { i < FILE_WORDS && !(SIZE_WORD <= i <= INDIRECT_WORD) }

  lemma LabelKeepsOk(s: Disk, f: Home, i: nat, v: nat)
    requires FsOk(s) && IsHome(s, f) && IsLabel(i)
    ensures IsPtr(s, f)
    ensures var s' := SetField(s, f, i, v);
      FsOk(s') && (NoLeaks(s') <==> NoLeaks(s)) && SameFiles(s, s')
  {
    HomePlace(s, f);
    IndirectNoHome(s, f, f);
    var s' := SetField(s, f, i, v);
    SetFieldOwn(s, f, i, v);
    forall g | IsHome(s, g) ensures SameMap(s, s', g) && SameView(s, s', g) {
      if g != f {
        SetFieldOthers(s, f, i, v, g);
      }
      SameWordsSame(s, s', g);
    }
    SameOwners(s, s');
    SameOwnersOk(s, s');
  }

  /** The first byte of f_name. */
  predicate Unnamed(s: Disk, f: Home) { Field(s, f, 0) % 256 == 0 }

  // ---------- file_remove ----------

  /** file_remove once the path has been walked: truncation, and the name's first byte. */
  function FileRemove(s: Disk, f: Home): Disk
    requires Sized(s) && IsPtr(s, f)
  {
    var s1 := FileTruncate(s, f, 0);
    SetField(s1, f, 0, Field(s1, f, 0) / 256 * 256)
  }

  lemma TruncateThenLabel(s: Disk, f: Home, size: nat, i: nat, v: nat)
    requires FsOk(s) && NoLeaks(s) && IsHome(s, f) && size <= Size(s, f) && IsLabel(i)
    ensures IsPtr(s, f)
    ensures var s' := SetField(FileTruncate(s, f, size), f, i, v);
      FsOk(s') && (NoLeaks(s') <==> NothingBeyond(s, f, size) && ChildrenBarren(s, f, size))
  {
    TruncateDrops(s, f, size);
    TruncateLeaks(s, f, size);
    LabelKeepsOk(FileTruncate(s, f, size), f, i, v);
  }

  /** After its removal a struct File is empty and has no name, and all others are as they were. */
  lemma RemoveClears(s: Disk, f: Home)
    requires FsOk(s) && IsHome(s, f)
    ensures IsPtr(s, f)
    ensures var s' := FileRemove(s, f);
      && Unnamed(s', f) && Size(s', f) == 0 && IsDir(s', f) == IsDir(s, f) && At(s', Indirect(f)) == 0
      && (forall n: nat | n < BlockCount(Size(s, f)) && n < NINDIRECT :: At(s', Slot(f, n)) == 0)
      && OtherFilesSame(s, s', f)
  {
    TruncateDrops(s, f, 0);
    var s1 := FileTruncate(s, f, 0);
    OnlyFileFields(s, s1, f);
    var v := Field(s1, f, 0) / 256 * 256;
    SetFieldOwn(s1, f, 0, v);
    LabelKeepsOk(s1, f, 0, v);
    assert SameMap(s1, SetField(s1, f, 0, v), f);
    RemoveOthers(s, s1, f, v);
  }

  lemma RemoveOthers(s: Disk, s1: Disk, f: Home, v: nat)
    requires FsOk(s) && IsHome(s, f) && OtherFilesSame(s, s1, f) && IsPtr(s1, f)
    ensures OtherFilesSame(s, SetField(s1, f, 0, v), f)
  {
    forall g, i: nat | IsHome(s, g) && g != f && i < FILE_WORDS
      ensures Field(SetField(s1, f, 0, v), g, i) == Field(s, g, i)
    {
      HomesApart(s, f, g);
      assert Field(s1, g, i) == Field(s, g, i);
    }
  }

  /** So the search for an unnamed struct File stops there, or at one before it. */
  lemma RemovedIsFound(s: Disk, f: Home)
    requires FsOk(s) && IsHome(s, f) && f != ROOT
    ensures IsPtr(s, f)
    ensures var j := FindUnnamed(FileRemove(s, f), f.b, 0);
      j <= f.w / FILE_WORDS < FILE2BLK && Home(f.b, FILE_WORDS * (f.w / FILE_WORDS)) == f
  {
    HomePlace(s, f);
    RemoveClears(s, f);
    assert FILE_WORDS * (f.w / FILE_WORDS) == f.w;
  }

  /** Removing a file keeps the file system in order.  It leaks blocks exactly when the file has
      blocks in its indirect block beyond its size, or is a directory with a file, in use or
      not, that has blocks; it is not checked that a directory is empty. */
  lemma RemoveLeaks(s: Disk, f: Home)
    requires FsOk(s) && NoLeaks(s) && IsHome(s, f)
    ensures IsPtr(s, f) && FsOk(FileRemove(s, f))
    ensures NoLeaks(FileRemove(s, f)) <==> NothingBeyond(s, f, 0) && ChildrenBarren(s, f, 0)
  {
    HomePlace(s, f);
    TruncateThenLabel(s, f, 0, 0, Field(FileTruncate(s, f, 0), f, 0) / 256 * 256);
  }

  // ---------- dir_alloc_file ----------

  /** file_get_block. */
  function FileGetBlock(s: Disk, f: Home, n: nat): (r: (Disk, int))
    requires Sized(s) && IsPtr(s, f)
  {
    var (s1, r) := FileMapBlock(s, f, n, true);
    if r < 0 then (s1, r) else (ReadBlock(s1, r), r)
  }

  /** The first struct File of block b, from the k-th on, that has no name; FILE2BLK if none. */
  function FindUnnamed(s: Disk, b: nat, k: nat): (r: nat)
    requires k <= FILE2BLK
    ensures k <= r <= FILE2BLK && (r < FILE2BLK ==> Unnamed(s, Home(b, FILE_WORDS * r)))
    ensures forall j: nat | k <= j < r :: !Unnamed(s, Home(b, FILE_WORDS * j))
    decreases FILE2BLK - k
  {
    if k == FILE2BLK || Unnamed(s, Home(b, FILE_WORDS * k)) then k else FindUnnamed(s, b, k + 1)
  }

  /** The state, the struct File found if one is, and an error or 0. */
  datatype Found = Found(s: Disk, file: Option<Home>, r: int)

  /** The loop of dir_alloc_file from block i on. */
  function ScanDir(s: Disk, d: Home, i: nat, nblock: nat): (r: Found)
    requires Sized(s) && IsPtr(s, d)
    ensures Sized(r.s) && IsPtr(r.s, d)
    decreases nblock - i, s
  {
    if i >= nblock then Found(s, None, 0)
    else
      MapSized(s, d, i, true);
      var (s1, b) := FileGetBlock(s, d, i);
      if b < 0 then Found(s1, None, b)
      else if FindUnnamed(s1, b, 0) < FILE2BLK then
        Found(s1, Some(Home(b, FILE_WORDS * FindUnnamed(s1, b, 0))), 0)
      else ScanDir(s1, d, i + 1, nblock)
  }

  lemma MapSized(s: Disk, f: Home, n: nat, alloc: bool)
    requires Sized(s) && IsPtr(s, f)
    ensures Sized(FileMapBlock(s, f, n, alloc).0) && SameShape(s, FileMapBlock(s, f, n, alloc).0)
  {
    WalkSized(s, f, n, alloc);
    AllocSized(FileBlockWalk(s, f, n, alloc).0);
  }

  lemma WalkSized(s: Disk, f: Home, n: nat, alloc: bool)
    requires Sized(s) && IsPtr(s, f)
    ensures Sized(FileBlockWalk(s, f, n, alloc).0) && SameShape(s, FileBlockWalk(s, f, n, alloc).0)
  {
    AllocSized(s);
  }

  lemma AllocSized(s: Disk)
    requires Sized(s)
    ensures Sized(AllocBlock(s).0) && SameShape(s, AllocBlock(s).0)
  {
  }

  /** One more block for directory d, which had n: its size grows first, and stays so if there is
      no block. */
  function MoreDir(s: Disk, d: Home, n: nat): (r: (Disk, int))
    requires Sized(s) && IsPtr(s, d)
  {
    FileGetBlock(SetSize(s, d, Size(s, d) + BY2BLK), d, n)
  }

  function DirAllocFile(s: Disk, d: Home): (r: Found)
    requires Sized(s) && IsPtr(s, d)
  {
    var scan := ScanDir(s, d, 0, Size(s, d) / BY2BLK);
    if scan.r < 0 || scan.file.Some? then scan
    else
      var (s1, b) := MoreDir(scan.s, d, Size(s, d) / BY2BLK);
      if b < 0 then Found(s1, None, b) else Found(s1, Some(Home(b, 0)), 0)
  }

  /** The block that the directory is about to have as its last: one that it has already, beyond
      its size, with files that have blocks; or a new one whose old contents say so. */
  ghost predicate StaleMore(s: Disk, d: Home)
    requires Sized(s) && IsPtr(s, d)
  {
    var n, size := Size(s, d) / BY2BLK, Size(s, d) + BY2BLK;
    if At(s, Slot(d, n)) != 0 then !NewChildrenBarren(s, d, size) else Stale(SetSize(s, d, size), d, n)
  }

  lemma MoreDirMaps(s: Disk, d: Home)
    requires FsOk(s) && IsHome(s, d)
    ensures IsPtr(s, d)
    ensures var n, s1 := Size(s, d) / BY2BLK, SetSize(s, d, Size(s, d) + BY2BLK);
      && Sizes(s, s1, d, Size(s, d) + BY2BLK) && At(s1, Slot(d, n)) == At(s, Slot(d, n))
      && (At(s, Slot(d, n)) != 0 ==> (
            && n < NINDIRECT
            && FileMapBlock(s1, d, n, true).0.data == s1.data && FileMapBlock(s1, d, n, true).0.bitmap == s.bitmap))
  {
    SetSizeIs(s, d, Size(s, d) + BY2BLK);
    var n, s1 := Size(s, d) / BY2BLK, SetSize(s, d, Size(s, d) + BY2BLK);
    assert At(s1, Indirect(d)) == At(s, Indirect(d));
    if At(s, Slot(d, n)) != 0 {
      var s2 := FileBlockWalk(s1, d, n, true).0;
      assert At(s2, Slot(d, n)) == At(s1, Slot(d, n));
    }
  }

  /** If the directory has no such block yet, its larger size alone shows nothing. */
  lemma OneMoreBarren(s: Disk, d: Home)
    requires At(s, Slot(d, Size(s, d) / BY2BLK)) == 0
    ensures NewChildrenBarren(s, d, Size(s, d) + BY2BLK)
  {
    assert (Size(s, d) + BY2BLK) / BY2BLK == Size(s, d) / BY2BLK + 1;
  }

  /** Making a directory one block longer keeps a file system without leaks in order exactly
      when that block is not stale: the names it gives are written into struct Files whose other
      words nothing clears. */
  lemma MoreDirKeepsOkExactly(s: Disk, d: Home)
    requires FsOk(s) && NoLeaks(s) && IsHome(s, d)
    ensures IsPtr(s, d)
    ensures FsOk(MoreDir(s, d, Size(s, d) / BY2BLK).0) <==> !StaleMore(s, d)
  {
    MoreDirMaps(s, d);
    var n, size := Size(s, d) / BY2BLK, Size(s, d) + BY2BLK;
    var s1 := SetSize(s, d, size);
    var s2, s3 := FileMapBlock(s1, d, n, true).0, MoreDir(s, d, n).0;
    SameDataSame(s2, s3);
    if At(s, Slot(d, n)) != 0 {
      ResizeKeepsOkExactly(s, d, size);
      assert FileSetSize(s, d, size) == s1;
      SameDataOk(s1, s3);
    } else {
      OneMoreBarren(s, d);
      GrowKeepsOk(s, d, size);
      GrownIsHome(s, s1, d, size);
      MapKeepsOkExactly(s1, d, n, true);
      SameDataOk(s2, s3);
    }
  }

  lemma GrownIsHome(s: Disk, s1: Disk, d: Home, size: nat)
    requires FsOk(s) && IsHome(s, d) && Sizes(s, s1, d, size) && size >= Size(s, d)
    ensures IsHome(s1, d)
  {
    SetSizeGrows(s, s1, d, size);
    GrowsKeepsOwners(s, s1, d);
  }

  lemma SameDataOk(s: Disk, s': Disk)
    requires s'.data == s.data && s'.bitmap == s.bitmap
    ensures FsOk(s') <==> FsOk(s)
  {
    SameDataSame(s, s');
    if FsOk(s) {
      SameOwnersOk(s, s');
    }
    if FsOk(s') {
      SameOwnersOk(s', s);
    }
  }

  /** read_block does not panic over a block that the loop reads. */
  ghost predicate ScanReads(s: Disk, d: Home, i: nat, nblock: nat)
    requires Sized(s) && IsPtr(s, d)
    decreases nblock - i
  {
    i < nblock ==> (
      MapSized(s, d, i, true);
      var (s1, b) := FileGetBlock(s, d, i);
      b < |s.data| && (b >= 0 && FindUnnamed(s1, b, 0) == FILE2BLK ==> ScanReads(s1, d, i + 1, nblock)))
  }

  /** No block that the loop maps is stale. */
  ghost predicate ScanFine(s: Disk, d: Home, i: nat, nblock: nat)
    requires Sized(s) && IsPtr(s, d)
    decreases nblock - i
  {
    i < nblock ==>
      && !Stale(s, d, i)
      && (MapSized(s, d, i, true);
          var (s1, b) := FileGetBlock(s, d, i);
          b >= 0 && FindUnnamed(s1, b, 0) == FILE2BLK ==> ScanFine(s1, d, i + 1, nblock))
  }

  /** The file system is in order, and the file found, if one is, is there and has no name. */
  ghost predicate FoundFree(d: Home, scan: Found) {
    && FsOk(scan.s) && NoLeaks(scan.s) && IsHome(scan.s, d) && IsDir(scan.s, d)
    && (scan.file.Some? ==> IsHome(scan.s, scan.file.value) && Unnamed(scan.s, scan.file.value))
  }

  lemma GetBlockKeeps(s: Disk, d: Home, i: nat)
    requires FsOk(s) && NoLeaks(s) && IsHome(s, d) && IsDir(s, d)
    requires i < Size(s, d) / BY2BLK && IsPtr(s, d) && !Stale(s, d, i)
    ensures var (s1, b) := FileGetBlock(s, d, i);
      && FsOk(s1) && NoLeaks(s1) && IsHome(s1, d) && IsDir(s1, d) && Size(s1, d) == Size(s, d)
      && (b >= 0 ==> Shows(s1, d, i) && At(s1, Slot(d, i)) == b)
  {
    MapKeepsOk(s, d, i, true);
    MapResult(s, d, i, true);
    MapKeepsFile(s, d, i, true);
    var s1, s2 := FileMapBlock(s, d, i, true).0, FileGetBlock(s, d, i).0;
    SameDataSame(s1, s2);
    SameOwnersOk(s1, s2);
    assert SameMap(s1, s2, d) && SameView(s1, s2, d);
  }

  // ---------- what it does not find ----------

  /** The first words of the struct Files in block c are the same. */
  ghost predicate SameNames(s: Disk, s': Disk, c: nat) {
    && |s'.data| == |s.data|
    && forall k: nat | k < FILE2BLK :: Field(s', Home(c, FILE_WORDS * k), 0) == Field(s, Home(c, FILE_WORDS * k), 0)
  }

  lemma PointerIsNoName(s: Disk, f: Home, i: nat, v: nat, c: nat)
    requires IsPtr(s, f) && (c == f.b ==> f.w % FILE_WORDS == 0) && DIRECT_WORD <= i <= INDIRECT_WORD
    ensures SameNames(s, SetField(s, f, i, v), c)
  {
    forall k: nat | k < FILE2BLK ensures c == f.b ==> FILE_WORDS * k != f.w + i {
    }
  }

  lemma WalkNames(s: Disk, f: Home, n: nat, c: nat)
    requires FsOk(s) && IsHome(s, f) && InUse(s, c) && At(s, Indirect(f)) != c
    ensures IsPtr(s, f)
    ensures var s' := FileBlockWalk(s, f, n, true).0;
      SameNames(s, s', c) && Sized(s') && InUse(s', c) && At(s', Indirect(f)) != c
  {
    HomePlace(s, f);
    AllocBlockTakes(s);
    var s' := FileBlockWalk(s, f, n, true).0;
    if MakesIndirect(s, f, n) {
      WalkMakes(s, f, n);
      MadeNames(s, AllocBlock(s).0, s', f, AllocBlock(s).1, c);
    } else {
      assert s'.data == s.data && s'.bitmap == s.bitmap;
    }
  }

  lemma MadeNames(s: Disk, s1: Disk, s': Disk, f: Home, b: nat, c: nat)
    requires FsOk(s) && IsHome(s, f) && Takes(s, s1, b) && InUse(s, c)
    requires IsPtr(s1, f) && s'.bitmap == s1.bitmap && s'.data == SetField(s1, f, INDIRECT_WORD, b).data
    ensures SameNames(s, s', c) && Sized(s') && InUse(s', c) && At(s', Indirect(f)) != c
  {
    HomePlace(s, f);
    TakenNames(s, s1, b, f, c);
    PointerIsNoName(s1, f, INDIRECT_WORD, b, c);
    SameBits(s1, s');
    assert At(s', Indirect(f)) == b;
  }

  lemma StoreNames(s: Disk, f: Home, n: nat, v: nat, c: nat)
    requires IsPtr(s, f) && (c == f.b ==> f.w % FILE_WORDS == 0) && n < NINDIRECT && At(s, Indirect(f)) != c
    ensures SameNames(s, Store(s, f, n, v), c)
  {
    if n < NDIRECT {
      PointerIsNoName(s, f, DIRECT_WORD + n, v, c);
    }
  }

  lemma FillNames(s: Disk, f: Home, n: nat, c: nat)
    requires FsOk(s) && IsHome(s, f) && n < NINDIRECT && InUse(s, c) && At(s, Indirect(f)) != c
    ensures IsPtr(s, f)
    ensures SameNames(s, FillSlot(s, f, n).0, c)
  {
    HomePlace(s, f);
    AllocBlockTakes(s);
    var (s1, b) := AllocBlock(s);
    if b >= 0 {
      TakenFillNames(s, s1, b, f, n, c);
    }
  }

  lemma TakenFillNames(s: Disk, s1: Disk, b: nat, f: Home, n: nat, c: nat)
    requires FsOk(s) && IsHome(s, f) && n < NINDIRECT && InUse(s, c) && At(s, Indirect(f)) != c && Takes(s, s1, b)
    ensures IsPtr(s1, f) && SameNames(s, Store(s1, f, n, b), c)
  {
    HomePlace(s, f);
    TakenNames(s, s1, b, f, c);
    StoreNames(s1, f, n, b, c);
    SameNamesTwice(s, s1, Store(s1, f, n, b), c);
  }

  lemma TakenNames(s: Disk, s1: Disk, b: nat, f: Home, c: nat)
    requires FsOk(s) && IsHome(s, f) && Takes(s, s1, b) && InUse(s, c)
    ensures SameNames(s, s1, c) && At(s1, Indirect(f)) == At(s, Indirect(f))
  {
    assert s1.data[c] == s.data[c];
    FreeWords(s, s1, f);
    SameWordsSame(s, s1, f);
  }

  lemma SameNamesTwice(s: Disk, s1: Disk, s': Disk, c: nat)
    requires SameNames(s, s1, c) && SameNames(s1, s', c)
    ensures SameNames(s, s', c)
  {
  }

  /** Mapping a block of a file changes no names in blocks in use other than index blocks. */
  lemma MapNames(s: Disk, f: Home, n: nat, c: nat)
    requires FsOk(s) && IsHome(s, f) && !StaleIndex(s, f, n) && InUse(s, c) && At(s, Indirect(f)) != c
    ensures IsPtr(s, f)
    ensures SameNames(s, FileMapBlock(s, f, n, true).0, c)
  {
    WalkNames(s, f, n, c);
    WalkKeepsOk(s, f, n, true);
    var (s1, r) := FileBlockWalk(s, f, n, true);
    if r >= 0 && At(s1, Slot(f, n)) == 0 {
      FillNames(s1, f, n, c);
    }
  }

  /** Directory d has at least the blocks it had, with the same names in them. */
  ghost predicate SameEntries(s: Disk, s': Disk, d: Home) {
    forall n: nat | Shows(s, d, n) ::
      Shows(s', d, n) && At(s', Slot(d, n)) == At(s, Slot(d, n)) && SameNames(s, s', At(s, Slot(d, n)))
  }

  lemma GetBlockEntries(s: Disk, d: Home, i: nat)
    requires FsOk(s) && IsHome(s, d) && IsPtr(s, d) && !StaleIndex(s, d, i)
    ensures SameEntries(s, FileGetBlock(s, d, i).0, d)
  {
    var s' := FileGetBlock(s, d, i).0;
    MapKeepsFile(s, d, i, true);
    MapResult(s, d, i, true);
    forall n: nat | Shows(s, d, n)
      ensures Shows(s', d, n) && At(s', Slot(d, n)) == At(s, Slot(d, n)) && SameNames(s, s', At(s, Slot(d, n)))
    {
      var c := At(s, Slot(d, n));
      assert Owner(s, Slot(d, n), c);
      assert At(s, Indirect(d)) == c ==> Owner(s, Indirect(d), c);
      MapNames(s, d, i, c);
      SameDataSame(FileMapBlock(s, d, i, true).0, s');
      assert SameMap(FileMapBlock(s, d, i, true).0, s', d);
    }
  }

  /** Block n of d is there, and all its struct Files have names. */
  ghost predicate AllNamed(s: Disk, d: Home, n: nat) {
    Shows(s, d, n) && forall k: nat | k < FILE2BLK :: !Unnamed(s, ChildAt(s, d, n, k))
  }

  lemma StaysNamed(s: Disk, s': Disk, d: Home, n: nat)
    requires SameEntries(s, s', d) && AllNamed(s, d, n)
    ensures AllNamed(s', d, n)
  {
    forall k: nat | k < FILE2BLK ensures !Unnamed(s', ChildAt(s', d, n, k)) {
      assert !Unnamed(s, ChildAt(s, d, n, k));
    }
  }

  lemma EntriesTwice(s: Disk, s1: Disk, s': Disk, d: Home)
    requires SameEntries(s, s1, d) && SameEntries(s1, s', d)
    ensures SameEntries(s, s', d)
  {
    forall n: nat | Shows(s, d, n)
      ensures Shows(s', d, n) && At(s', Slot(d, n)) == At(s, Slot(d, n)) && SameNames(s, s', At(s, Slot(d, n)))
    {
      assert Shows(s1, d, n);
    }
  }

  /** File f is in one of the blocks of d from i to n. */
  ghost predicate IsEntry(s: Disk, d: Home, i: nat, n: nat, f: Home) {
    exists m: nat, k: nat :: i <= m < n && k < FILE2BLK && Shows(s, d, m) && f == ChildAt(s, d, m, k)
  }

  /** The loop from block i on stops at an entry, or finds all struct Files of its blocks named. */
  ghost predicate ScanTells(s: Disk, d: Home, i: nat, nblock: nat, scan: Found) {
    && SameEntries(s, scan.s, d)
    && (scan.file.Some? ==> IsEntry(scan.s, d, i, nblock, scan.file.value))
    && (scan.file.None? && scan.r >= 0 ==> forall n: nat | i <= n < nblock :: AllNamed(scan.s, d, n))
  }

  lemma {:induction false} ScanMisses(s: Disk, d: Home, i: nat, nblock: nat)
    requires ScanStarts(s, d, i, nblock)
    ensures ScanTells(s, d, i, nblock, ScanDir(s, d, i, nblock))
    decreases nblock - i
  {
    if i < nblock {
      MissesStep(s, d, i, nblock);
      var (s1, b) := FileGetBlock(s, d, i);
      if b >= 0 && FindUnnamed(s1, b, 0) == FILE2BLK {
        ScanMisses(s1, d, i + 1, nblock);
        MissesOn(s, s1, d, i, nblock, ScanDir(s1, d, i + 1, nblock));
      }
    }
  }

  lemma MissesStep(s: Disk, d: Home, i: nat, nblock: nat)
    requires ScanStarts(s, d, i, nblock) && i < nblock
    ensures Sized(FileGetBlock(s, d, i).0)
    ensures var (s1, b) := FileGetBlock(s, d, i);
      if b >= 0 && FindUnnamed(s1, b, 0) == FILE2BLK then
        && ScanStarts(s1, d, i + 1, nblock) && SameEntries(s, s1, d) && AllNamed(s1, d, i)
        && ScanDir(s, d, i, nblock) == ScanDir(s1, d, i + 1, nblock)
      else ScanTells(s, d, i, nblock, ScanDir(s, d, i, nblock))
  {
    ScanGoesOn(s, d, i, nblock);
    MissesHere(s, d, i);
    var (s1, b) := FileGetBlock(s, d, i);
    if b < 0 || FindUnnamed(s1, b, 0) < FILE2BLK {
      MissesAt(s, s1, d, i, nblock, b);
    }
  }

  lemma MissesAt(s: Disk, s1: Disk, d: Home, i: nat, nblock: nat, b: int)
    requires SameEntries(s, s1, d) && i < nblock
    requires b >= 0 ==> Shows(s1, d, i) && At(s1, Slot(d, i)) == b && FindUnnamed(s1, b, 0) < FILE2BLK
    ensures ScanTells(s, d, i, nblock, Stopped(s1, b))
  {
    if b >= 0 {
      assert ChildAt(s1, d, i, FindUnnamed(s1, b, 0)) == Home(b, FILE_WORDS * FindUnnamed(s1, b, 0));
    }
  }

  lemma MissesHere(s: Disk, d: Home, i: nat)
    requires FsOk(s) && NoLeaks(s) && IsHome(s, d) && IsDir(s, d)
    requires i < Size(s, d) / BY2BLK && IsPtr(s, d) && !Stale(s, d, i)
    ensures var (s1, b) := FileGetBlock(s, d, i);
      && SameEntries(s, s1, d)
      && (b >= 0 ==> Shows(s1, d, i) && At(s1, Slot(d, i)) == b)
      && (b >= 0 && FindUnnamed(s1, b, 0) == FILE2BLK ==> AllNamed(s1, d, i))
  {
    GetBlockEntries(s, d, i);
    GetBlockKeeps(s, d, i);
  }

  lemma MissesOn(s: Disk, s1: Disk, d: Home, i: nat, nblock: nat, scan: Found)
    requires SameEntries(s, s1, d) && AllNamed(s1, d, i) && ScanTells(s1, d, i + 1, nblock, scan)
    ensures ScanTells(s, d, i, nblock, scan)
  {
    EntriesTwice(s, s1, scan.s, d);
    StaysNamed(s1, scan.s, d, i);
  }

  // ---------- what it finds ----------

  /** What ScanDir returns when it has come to block i. */
  ghost predicate ScanOk(d: Home, size: nat, scan: Found) {
    FoundFree(d, scan) && Size(scan.s, d) == size && (scan.r < 0 ==> scan.file.None?)
  }

  /** The end of the loop at a block that has a struct File to spare, or cannot be had. */
  function Stopped(s: Disk, b: int): Found {
    if b < 0 then Found(s, None, b) else Found(s, Some(Home(b, FILE_WORDS * FindUnnamed(s, b, 0))), 0)
  }

  lemma ScanRound(s: Disk, d: Home, i: nat, nblock: nat)
    requires Sized(s) && IsPtr(s, d) && i < nblock
    ensures Sized(FileGetBlock(s, d, i).0) && IsPtr(FileGetBlock(s, d, i).0, d)
    ensures var (s1, b) := FileGetBlock(s, d, i);
      ScanDir(s, d, i, nblock) ==
      if b >= 0 && FindUnnamed(s1, b, 0) == FILE2BLK then ScanDir(s1, d, i + 1, nblock) else Stopped(s1, b)
  {
    MapSized(s, d, i, true);
  }

  lemma StopsHere(s: Disk, d: Home, i: nat, s1: Disk, b: int)
    requires FsOk(s1) && NoLeaks(s1) && IsHome(s1, d) && IsDir(s1, d) && Size(s1, d) == Size(s, d)
    requires b >= 0 ==> Shows(s1, d, i) && At(s1, Slot(d, i)) == b && FindUnnamed(s1, b, 0) < FILE2BLK
    ensures ScanOk(d, Size(s, d), Stopped(s1, b))
  {
    if b >= 0 {
      ChildIsHome(s1, d, i, FindUnnamed(s1, b, 0));
    }
  }

  ghost predicate ScanStarts(s: Disk, d: Home, i: nat, nblock: nat) {
    && FsOk(s) && NoLeaks(s) && IsHome(s, d) && IsDir(s, d) && nblock <= Size(s, d) / BY2BLK
    && IsPtr(s, d) && ScanFine(s, d, i, nblock)
  }

  lemma ScanGoesOn(s: Disk, d: Home, i: nat, nblock: nat)
    requires ScanStarts(s, d, i, nblock) && i < nblock
    ensures Sized(FileGetBlock(s, d, i).0)
    ensures var (s1, b) := FileGetBlock(s, d, i);
      if b >= 0 && FindUnnamed(s1, b, 0) == FILE2BLK then
        && ScanStarts(s1, d, i + 1, nblock) && Size(s1, d) == Size(s, d)
        && ScanDir(s, d, i, nblock) == ScanDir(s1, d, i + 1, nblock)
      else ScanOk(d, Size(s, d), ScanDir(s, d, i, nblock)) && ScanDir(s, d, i, nblock) == Stopped(s1, b)
  {
    ScanRound(s, d, i, nblock);
    GetBlockKeeps(s, d, i);
    var (s1, b) := FileGetBlock(s, d, i);
    if b >= 0 && FindUnnamed(s1, b, 0) == FILE2BLK {
      HomePlace(s1, d);
    } else {
      StopsHere(s, d, i, s1, b);
    }
  }

  lemma {:induction false} ScanFinds(s: Disk, d: Home, i: nat, nblock: nat)
    requires ScanStarts(s, d, i, nblock)
    ensures ScanOk(d, Size(s, d), ScanDir(s, d, i, nblock))
    decreases nblock - i
  {
    if i < nblock {
      ScanGoesOn(s, d, i, nblock);
      var (s1, b) := FileGetBlock(s, d, i);
      if b >= 0 && FindUnnamed(s1, b, 0) == FILE2BLK {
        ScanFinds(s1, d, i + 1, nblock);
      }
    }
  }

  /** While the blocks that a directory has are not stale, the loop of dir_alloc_file finds a
      struct File without a name, unless it meets an error or every struct File in every block
      of the directory has a name; that is, if its blocks can be had, it finds one exactly if
      there is one.  The names that were there are kept.  The file system stays in order, if no
      block is added, or exactly when that block is not stale. */
  lemma DirAllocFinds(s: Disk, d: Home)
    requires FsOk(s) && NoLeaks(s) && IsHome(s, d) && IsDir(s, d)
    requires IsPtr(s, d) && ScanFine(s, d, 0, Size(s, d) / BY2BLK)
    ensures var scan := ScanDir(s, d, 0, Size(s, d) / BY2BLK);
      && FoundFree(d, scan) && SameEntries(s, scan.s, d)
      && (scan.file.Some? ==> IsEntry(scan.s, d, 0, Size(s, d) / BY2BLK, scan.file.value))
      && (scan.r >= 0 ==> (scan.file.None? <==> forall n: nat | n < Size(s, d) / BY2BLK :: AllNamed(scan.s, d, n)))
      && (FsOk(DirAllocFile(s, d).s) <==> scan.file.Some? || scan.r < 0 || !StaleMore(scan.s, d))
      && (scan.file.Some? ==> DirAllocFile(s, d) == scan)
  {
    var scan := ScanDir(s, d, 0, Size(s, d) / BY2BLK);
    ScanFinds(s, d, 0, Size(s, d) / BY2BLK);
    ScanMisses(s, d, 0, Size(s, d) / BY2BLK);
    if scan.file.Some? {
      var m: nat, k: nat :| m < Size(s, d) / BY2BLK && k < FILE2BLK && scan.file.value == ChildAt(scan.s, d, m, k);
      assert !AllNamed(scan.s, d, m);
    }
    if scan.file.None? && scan.r >= 0 {
      MoreDirKeepsOkExactly(scan.s, d);
    }
  }

  /** If every struct File has a name, the directory becomes one block longer, even if that fails
      for want of a block; otherwise, unless it is stale, what is found is the first struct File
      in the new last block. */
  lemma DirAllocAdds(s: Disk, d: Home)
    requires FsOk(s) && NoLeaks(s) && IsHome(s, d) && IsDir(s, d)
    requires IsPtr(s, d) && ScanFine(s, d, 0, Size(s, d) / BY2BLK)
    requires var scan := ScanDir(s, d, 0, Size(s, d) / BY2BLK); scan.file.None? && scan.r >= 0 && !StaleMore(scan.s, d)
    ensures var res, n := DirAllocFile(s, d), Size(s, d) / BY2BLK;
      && Size(res.s, d) == Size(s, d) + BY2BLK
      && (res.file.None? <==> res.r != 0) && (res.r != 0 ==> res.r in {-E_INVAL, -E_NO_DISK, -E_NO_MEM})
      && (res.r == -E_INVAL <==> n >= NINDIRECT)
      && (res.r == 0 ==> Shows(res.s, d, n) && res.file == Some(ChildAt(res.s, d, n, 0)))
  {
    var scan := ScanDir(s, d, 0, Size(s, d) / BY2BLK);
    ScanFinds(s, d, 0, Size(s, d) / BY2BLK);
    MoreDirResult(scan.s, d);
  }

  lemma MoreDirResult(s: Disk, d: Home)
    requires FsOk(s) && NoLeaks(s) && IsHome(s, d) && IsDir(s, d) && IsPtr(s, d) && !StaleMore(s, d)
    ensures var n := Size(s, d) / BY2BLK;
      var (s', r) := MoreDir(s, d, n);
      && Size(s', d) == Size(s, d) + BY2BLK && (r < 0 ==> r in {-E_INVAL, -E_NO_DISK, -E_NO_MEM})
      && (r == -E_INVAL <==> n >= NINDIRECT) && (r >= 0 ==> Shows(s', d, n) && At(s', Slot(d, n)) == r)
  {
    MoreDirMaps(s, d);
    var n, size := Size(s, d) / BY2BLK, Size(s, d) + BY2BLK;
    assert size / BY2BLK == n + 1;
    var s1 := SetSize(s, d, size);
    MoreDirGrown(s, d);
    MapResult(s1, d, n, true);
    MapKeepsFile(s1, d, n, true);
    var s2, s3 := FileMapBlock(s1, d, n, true).0, MoreDir(s, d, n).0;
    SameDataSame(s2, s3);
    assert SameMap(s2, s3, d);
  }

  lemma MoreDirGrown(s: Disk, d: Home)
    requires FsOk(s) && NoLeaks(s) && IsHome(s, d) && IsPtr(s, d) && !StaleMore(s, d)
    ensures var s1 := SetSize(s, d, Size(s, d) + BY2BLK);
      FsOk(s1) && IsHome(s1, d) && !StaleIndex(s1, d, Size(s, d) / BY2BLK)
  {
    MoreDirMaps(s, d);
    var size := Size(s, d) + BY2BLK;
    if At(s, Slot(d, Size(s, d) / BY2BLK)) == 0 {
      OneMoreBarren(s, d);
    }
    GrowKeepsOk(s, d, size);
    GrownIsHome(s, SetSize(s, d, size), d, size);
  }

  // ---------- runs ----------

  /** What the server does to the blocks of files, and what its clients do to blocks that it has
      sent them.  dir_alloc_file is made of Map and Resize, file_create and file_remove of these,
      Truncate and Label. */
  datatype Op =
    | Map(f: Home, n: nat, alloc: bool)
    | Resize(f: Home, size: nat)
    | Truncate(f: Home)
    | Label(f: Home, i: nat, v: nat)
    | Write(b: nat, words: Words)

  /** f is a struct File that can be reached, and the operation meets the exact condition under
      which it keeps the file system in order. */
  ghost predicate CanDo(s: Disk, op: Op)
    requires Sized(s)
  {
    && (!op.Write? ==> IsHome(s, op.f) && IsPtr(s, op.f))
    && match op
       case Map(f, n, alloc) => !(alloc && Stale(s, f, n))
       case Resize(f, size) => size <= Size(s, f) || NewChildrenBarren(s, f, size)
       case Truncate(f) => true
       case Label(f, i, _) => IsLabel(i)
       case Write(b, _) => Meta(s) <= b < |s.data| && !HoldsFiles(s, b) && !IsIndex(s, b)
  }

  ghost function Do(s: Disk, op: Op): Disk
    requires Sized(s) && CanDo(s, op)
  {
    match op
    case Map(f, n, alloc) => FileMapBlock(s, f, n, alloc).0
    case Resize(f, size) => FileSetSize(s, f, size)
    case Truncate(f) => FileTruncate(s, f, 0)
    case Label(f, i, v) => SetField(s, f, i, v)
    case Write(b, words) => WriteBlock(s, b, words)
  }

  lemma DoKeepsOk(s: Disk, op: Op)
    requires FsOk(s) && CanDo(s, op)
    ensures FsOk(Do(s, op))
  {
    match op
    case Map(f, n, alloc) => MapKeepsOk(s, f, n, alloc);
    case Resize(f, size) => ResizeKeepsOk(s, f, size);
    case Truncate(f) => TruncateDrops(s, f, 0);
    case Label(f, i, v) => LabelKeepsOk(s, f, i, v);
    case Write(b, words) => WriteDataKeeps(s, b, words);
  }

  ghost predicate Runs(s: Disk, ops: seq<Op>, s': Disk)
    decreases |ops|
  {
    if ops == [] then s' == s
    else Sized(s) && CanDo(s, ops[0]) && Runs(Do(s, ops[0]), ops[1..], s')
  }

  /** In every run, blocks of files stay in use, apart, and off the metadata blocks. */
  lemma {:induction false} RunKeepsOk(s: Disk, ops: seq<Op>, s': Disk)
    requires FsOk(s) && Runs(s, ops, s')
    ensures FsOk(s')
    decreases |ops|
  {
    if ops != [] {
      DoKeepsOk(s, ops[0]);
      RunKeepsOk(Do(s, ops[0]), ops[1..], s');
    }
  }
}
