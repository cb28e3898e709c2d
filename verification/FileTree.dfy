/** Where the struct Files are: one in the superblock, the others in the blocks of directories;
    and how the directories are reached from the root (user/include/fs.h, fs/fs.c). */
module FileTree {
  import opened Mmu
  import opened Bitmaps

  const BY2BLK: nat := 4096
  const BIT2BLK: nat := BY2BLK * 8
  const NDIRECT: nat := 10
  const NINDIRECT: nat := 1024
  const FTYPE_DIR: nat := 1

  /** A block as 32-bit words. */
  type Words = s: seq<nat> | |s| == NINDIRECT witness seq(NINDIRECT, _ => 0)

  function ZeroWords(): Words { seq(NINDIRECT, _ => 0) }

  /** bitmap: a set bit marks a free block; data: the s_nblocks blocks, as the cache shows or
      would show them; cached: blocks mapped in the cache; pages: how many more pages map_block
      will get from sys_mem_alloc. */
  datatype Disk = Disk(bitmap: seq<BitWord>, data: seq<Words>, cached: set<nat>, pages: nat)

  predicate Sized(s: Disk) { 2 <= |s.data| <= |s.bitmap| * BITS }

  // ---------- struct File ----------

  /** Word offsets in a struct File, and how many of them make a block. */
  const SIZE_WORD: nat := 32
  const TYPE_WORD: nat := 33
  const DIRECT_WORD: nat := 34
  const INDIRECT_WORD: nat := 44
  const FILE_WORDS: nat := 64
  const FILE2BLK: nat := 16

  /** A pointer to a struct File: its block, and the word of the block that it starts at. */
  datatype Home = Home(b: nat, w: nat)

  /** s_root, behind the two words of the superblock. */
  const ROOT := Home(1, 2)

  predicate IsPtr(s: Disk, f: Home) { f.b < |s.data| && f.w + FILE_WORDS <= NINDIRECT }

  function Field(s: Disk, f: Home, i: nat): nat {
    if f.b < |s.data| && f.w + i < NINDIRECT then s.data[f.b][f.w + i] else 0
  }

  function Size(s: Disk, f: Home): nat { Field(s, f, SIZE_WORD) }
  predicate IsDir(s: Disk, f: Home) { Field(s, f, TYPE_WORD) == FTYPE_DIR }

  /** The places that hold block numbers. */
  datatype Ref = Slot(f: Home, n: nat) | Indirect(f: Home)

  function InBlock(s: Disk, b: nat, n: nat): nat {
    if 0 < b < |s.data| && n < NINDIRECT then s.data[b][n] else 0
  }

  function At(s: Disk, r: Ref): nat {
    match r
    case Indirect(f) => Field(s, f, INDIRECT_WORD)
    case Slot(f, n) =>
      if n < NDIRECT then Field(s, f, DIRECT_WORD + n) else InBlock(s, Field(s, f, INDIRECT_WORD), n)
  }

  // ---------- the tree ----------

  /** Block n of f holds struct Files. */
  predicate Shows(s: Disk, f: Home, n: nat) {
    IsDir(s, f) && n < Size(s, f) / BY2BLK && n < NINDIRECT && At(s, Slot(f, n)) != 0
  }

  function ChildAt(s: Disk, f: Home, n: nat, k: nat): Home { Home(At(s, Slot(f, n)), FILE_WORDS * k) }

  /** From a directory to the k-th struct File in its block n. */
  datatype Step = Step(n: nat, k: nat)

  function Follow(s: Disk, path: seq<Step>): Option<Home>
    decreases |path|
  {
    if path == [] then Some(ROOT)
    else
      var d := Follow(s, path[..|path| - 1]);
      var last := path[|path| - 1];
      if d.Some? && Shows(s, d.value, last.n) && last.k < FILE2BLK then Some(ChildAt(s, d.value, last.n, last.k))
      else None
  }

  /** The struct Files of the file system, in use or not: all that can be reached from the root. */
  ghost predicate IsHome(s: Disk, f: Home) {
    exists path :: Follow(s, path) == Some(f)
  }

  lemma RootIsHome(s: Disk)
    ensures IsHome(s, ROOT)
  {
    assert Follow(s, []) == Some(ROOT);
  }

  lemma ChildIsHome(s: Disk, d: Home, n: nat, k: nat)
    requires IsHome(s, d) && Shows(s, d, n) && k < FILE2BLK
    ensures IsHome(s, ChildAt(s, d, n, k))
  {
    var path :| Follow(s, path) == Some(d);
    var longer := path + [Step(n, k)];
    assert longer[..|longer| - 1] == path;
    assert Follow(s, longer) == Some(ChildAt(s, d, n, k));
  }

  lemma {:induction false} LoneRoot(s: Disk, path: seq<Step>)
    requires (forall n: nat :: !Shows(s, ROOT, n)) && Follow(s, path).Some?
    ensures path == []
    decreases |path|
  {
    if path != [] {
      LoneRoot(s, path[..|path| - 1]);
    }
  }

  /** A path to f that does not come to f before its end. */
  lemma {:induction false} FirstVisit(s: Disk, path: seq<Step>, f: Home) returns (short: seq<Step>)
    requires Follow(s, path) == Some(f)
    ensures Follow(s, short) == Some(f) && forall j: nat | j < |short| :: Follow(s, short[..j]) != Some(f)
    decreases |path|
  {
    if j: nat :| j < |path| && Follow(s, path[..j]) == Some(f) {
      short := FirstVisit(s, path[..j], f);
    } else {
      short := path;
    }
  }

  /** The directory that f is in, which is not f itself. */
  lemma Parent(s: Disk, f: Home) returns (d: Home, n: nat, k: nat)
    requires IsHome(s, f) && f != ROOT
    ensures IsHome(s, d) && Shows(s, d, n) && k < FILE2BLK && f == ChildAt(s, d, n, k) && d != f
  {
    var path :| Follow(s, path) == Some(f);
    var short := FirstVisit(s, path, f);
    var last := short[|short| - 1];
    d, n, k := Follow(s, short[..|short| - 1]).value, last.n, last.k;
  }

  // ---------- how changes to the struct Files change the tree ----------

  /** The same blocks of f hold struct Files. */
  ghost predicate SameView(s: Disk, s': Disk, f: Home) {
    && (forall n: nat :: Shows(s', f, n) <==> Shows(s, f, n))
    && (forall n: nat | Shows(s, f, n) :: At(s', Slot(f, n)) == At(s, Slot(f, n)))
  }

  /** The block map of f is the same. */
  ghost predicate SameMap(s: Disk, s': Disk, f: Home) {
    && At(s', Indirect(f)) == At(s, Indirect(f))
    && (forall n: nat | n < NINDIRECT :: At(s', Slot(f, n)) == At(s, Slot(f, n)))
  }

  /** f has no blocks. */
  ghost predicate Barren(s: Disk, f: Home) {
    At(s, Indirect(f)) == 0 && forall n: nat | n < NINDIRECT :: At(s, Slot(f, n)) == 0
  }

  lemma {:induction false} SameFollow(s: Disk, s': Disk, path: seq<Step>)
    requires forall f | IsHome(s, f) :: SameView(s, s', f)
    ensures Follow(s', path) == Follow(s, path)
    decreases |path|
  {
    if path != [] {
      SameFollow(s, s', path[..|path| - 1]);
      var d := Follow(s, path[..|path| - 1]);
      assert d.Some? ==> IsHome(s, d.value);
    }
  }

  lemma SameTree(s: Disk, s': Disk)
    requires forall f | IsHome(s, f) :: SameView(s, s', f)
    ensures forall f :: IsHome(s', f) <==> IsHome(s, f)
  {
    forall f ensures IsHome(s', f) <==> IsHome(s, f) {
      if path :| Follow(s, path) == Some(f) {
        SameFollow(s, s', path);
      }
      if path :| Follow(s', path) == Some(f) {
        SameFollow(s, s', path);
      }
    }
  }

  /** The two states differ in the blocks of f only, as far as directories in both go. */
  ghost predicate OthersSame(s: Disk, s': Disk, f: Home) {
    forall d | IsHome(s, d) && IsHome(s', d) && d != f :: SameView(s, s', d)
  }

  /** And `big` has more of them. */
  ghost predicate Embeds(small: Disk, big: Disk, f: Home) {
    && OthersSame(small, big, f)
    && (forall n: nat | Shows(small, f, n) :: Shows(big, f, n) && At(big, Slot(f, n)) == At(small, Slot(f, n)))
  }

  lemma {:induction false} FollowInto(small: Disk, big: Disk, f: Home, path: seq<Step>)
    requires Embeds(small, big, f) && Follow(small, path).Some?
    ensures Follow(big, path) == Follow(small, path)
    decreases |path|
  {
    if path != [] {
      FollowInto(small, big, f, path[..|path| - 1]);
      var d := Follow(small, path[..|path| - 1]).value;
      assert IsHome(small, d) && IsHome(big, d);
    }
  }

  lemma HomesInto(small: Disk, big: Disk, f: Home)
    requires Embeds(small, big, f)
    ensures forall h | IsHome(small, h) :: IsHome(big, h)
  {
    forall h | IsHome(small, h) ensures IsHome(big, h) {
      var path :| Follow(small, path) == Some(h);
      FollowInto(small, big, f, path);
    }
  }

  /** c is in a block of f that only the bigger tree shows. */
  ghost predicate NewChild(small: Disk, big: Disk, f: Home, c: Home) {
    exists n: nat, k: nat :: Shows(big, f, n) && !Shows(small, f, n) && k < FILE2BLK && c == ChildAt(big, f, n, k)
  }

  /** What only the bigger tree shows has no blocks. */
  ghost predicate MoreIsBarren(small: Disk, big: Disk, f: Home) {
    forall n: nat, k: nat | Shows(big, f, n) && !Shows(small, f, n) && k < FILE2BLK ::
      Barren(big, ChildAt(big, f, n, k))
  }

  lemma {:induction false} FollowBack(small: Disk, big: Disk, f: Home, path: seq<Step>)
    requires Embeds(small, big, f) && MoreIsBarren(small, big, f) && Follow(big, path).Some?
    ensures Follow(small, path) == Follow(big, path) || NewChild(small, big, f, Follow(big, path).value)
    decreases |path|
  {
    if path != [] {
      FollowBack(small, big, f, path[..|path| - 1]);
      var d, last := Follow(big, path[..|path| - 1]).value, path[|path| - 1];
      assert Shows(big, d, last.n);
      assert !Barren(big, d);
      assert IsHome(small, d) && IsHome(big, d);
    }
  }

  /** So every other file there is was there before. */
  lemma HomesBack(small: Disk, big: Disk, f: Home)
    requires Embeds(small, big, f) && MoreIsBarren(small, big, f)
    ensures forall h | IsHome(big, h) :: IsHome(small, h) || (NewChild(small, big, f, h) && Barren(big, h))
  {
    forall h | IsHome(big, h) ensures IsHome(small, h) || (NewChild(small, big, f, h) && Barren(big, h)) {
      var path :| Follow(big, path) == Some(h);
      FollowBack(small, big, f, path);
    }
  }

  /** A directory whose blocks change is still where it was: no path to it needs them. */
  lemma StaysHome(s: Disk, s': Disk, f: Home)
    requires OthersSame(s', s, f) && IsHome(s, f)
    ensures IsHome(s', f)
  {
    var path :| Follow(s, path) == Some(f);
    var short := FirstVisit(s, path, f);
    AvoidsFollow(s, s', f, short);
  }

  lemma {:induction false} AvoidsFollow(s: Disk, s': Disk, f: Home, path: seq<Step>)
    requires OthersSame(s', s, f) && Follow(s, path).Some?
    requires forall j: nat | j < |path| :: Follow(s, path[..j]) != Some(f)
    ensures Follow(s', path) == Follow(s, path)
    decreases |path|
  {
    if path != [] {
      var front := path[..|path| - 1];
      assert forall j: nat | j < |front| :: front[..j] == path[..j];
      AvoidsFollow(s, s', f, front);
      var d := Follow(s, front).value;
      assert IsHome(s', d) && IsHome(s, d) && d != f;
    }
  }
}
