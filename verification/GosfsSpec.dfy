/** The directory tree of GOSFS (src/geekos/gosfs.c): blocks of directory entries and a bitmap of blocks. */
module GosfsSpec {

  /** Directory entries in a block: 4096 bytes at 216 bytes each. */
  const ENTRIES := 18
  const ROOT := 1
  const PREV_DIR := 1
  const MAX_PREFIX_LEN := 16

  const USED := 1
  const ISDIR := 2

  datatype Entry = Entry(flags: int, name: string, block: int)

  const ZERO := Entry(0, "", 0)

  /** dir: every block as directory entries. depth and owner are not on the disk: the distance of each directory
      from the root, and for each allocated block the directory and entry that it belongs to. */
  datatype Fs = Fs(size: int, dir: seq<seq<Entry>>, bitmap: seq<bool>, depth: map<int, nat>,
                   owner: map<int, (int, int)>)

  /** A component of a path that Unpack_Path accepts. */
  predicate Component(n: string) {
    1 <= |n| <= MAX_PREFIX_LEN && '/' !in n
  }

  predicate Name(n: string) {
    Component(n) && n != "." && n != ".."
  }

  function EntryOf(fs: Fs, b: int, i: int): Entry {
    if 0 <= b < |fs.dir| && 0 <= i < |fs.dir[b]| then fs.dir[b][i] else ZERO
  }

  function Parent(fs: Fs, b: int): int {
    EntryOf(fs, b, PREV_DIR).block
  }

  // ---------------------------------------------------------------------------------------------
  // The invariant
  // ---------------------------------------------------------------------------------------------

  ghost predicate Sizes(fs: Fs) {
    |fs.dir| == |fs.bitmap| == fs.size && fs.size >= 2 && forall b {:trigger fs.dir[b]} :: 0 <= b < |fs.dir| ==>
        |fs.dir[b]| == ENTRIES
  }

  /** Directory b begins with entries for itself and its parent, and is in turn an entry of its parent. */
  ghost predicate DirOk(fs: Fs, b: int) {
    b in fs.depth ==>
      && 1 <= b < fs.size && EntryOf(fs, b, 0) == Entry(ISDIR, ".", b)
          && EntryOf(fs, b, PREV_DIR) == Entry(ISDIR, "..", Parent(fs, b))
      && Parent(fs, b) in fs.depth
      && (b == ROOT ==> Parent(fs, b) == ROOT && fs.depth[b] == 0)
      && (b != ROOT ==> fs.depth[b] == fs.depth[Parent(fs, b)] + 1 && b in fs.owner && fs.owner[b].0 == Parent(fs, b)
                        && EntryOf(fs, fs.owner[b].0, fs.owner[b].1).flags == ISDIR)
  }

  /** The other entries are empty or name a block that is theirs. */
  ghost predicate EntryOk(fs: Fs, b: int, i: int) {
    b in fs.depth && 2 <= i < ENTRIES ==>
      var e := EntryOf(fs, b, i);
      if e.flags == 0 then e == ZERO else
      && (e.flags == USED || e.flags == ISDIR) && Name(e.name)
      && e.block in fs.owner && fs.owner[e.block] == (b, i)
      && (e.flags == ISDIR <==> e.block in fs.depth) && (e.flags == ISDIR ==> Parent(fs, e.block) == b)
  }

  ghost predicate OwnerOk(fs: Fs, x: int) {
    x in fs.owner ==>
      var (b, i) := fs.owner[x];
      2 <= x < fs.size && b in fs.depth && 2 <= i < ENTRIES && EntryOf(fs, b, i).flags != 0
          && EntryOf(fs, b, i).block == x
  }

  ghost predicate NamesOk(fs: Fs, b: int, i: int, j: int) {
    b in fs.depth && 2 <= i < j < ENTRIES && EntryOf(fs, b, i).flags != 0 && EntryOf(fs, b, j).flags != 0 ==>
      EntryOf(fs, b, i).name != EntryOf(fs, b, j).name
  }

  /** The bitmap marks the superblock, the root and the blocks that belong to an entry. */
  ghost predicate BitOk(fs: Fs, x: int) {
    0 <= x < |fs.bitmap| ==> (fs.bitmap[x] <==> x == 0 || x == ROOT || x in fs.owner)
  }

  ghost predicate Inv(fs: Fs) {
    && Sizes(fs) && ROOT in fs.depth
    && (forall b {:trigger DirOk(fs, b)} :: DirOk(fs, b))
    && (forall b, i {:trigger EntryOk(fs, b, i)} :: EntryOk(fs, b, i))
    && (forall x {:trigger OwnerOk(fs, x)} :: OwnerOk(fs, x))
    && (forall b, i, j {:trigger NamesOk(fs, b, i, j)} :: NamesOk(fs, b, i, j))
    && (forall x {:trigger BitOk(fs, x)} :: BitOk(fs, x))
  }

  /** The invariant, put together from its parts. */
  lemma Assemble(fs: Fs)
    requires Sizes(fs) && ROOT in fs.depth
    requires forall b {:trigger DirOk(fs, b)} :: DirOk(fs, b)
    requires forall b, i {:trigger EntryOk(fs, b, i)} :: EntryOk(fs, b, i)
    requires forall x {:trigger OwnerOk(fs, x)} :: OwnerOk(fs, x)
    requires forall b, i, j {:trigger NamesOk(fs, b, i, j)} :: NamesOk(fs, b, i, j)
    requires forall x {:trigger BitOk(fs, x)} :: BitOk(fs, x)
    ensures Inv(fs)
  {
    hide DirOk, EntryOk, OwnerOk, NamesOk, BitOk;
  }

  lemma DirIs(fs: Fs, b: int)
    requires Inv(fs)
    ensures Sizes(fs) && ROOT in fs.depth && DirOk(fs, b)
  {
  }

  lemma EntryIs(fs: Fs, b: int, i: int)
    requires Inv(fs)
    ensures EntryOk(fs, b, i)
  {
  }

  lemma OwnerIs(fs: Fs, x: int)
    requires Inv(fs)
    ensures OwnerOk(fs, x) && BitOk(fs, x)
  {
  }

  lemma NamesAre(fs: Fs, b: int, i: int, j: int)
    requires Inv(fs)
    ensures NamesOk(fs, b, i, j) && NamesOk(fs, b, j, i)
  {
  }

  // ---------------------------------------------------------------------------------------------
  // Lookup
  // ---------------------------------------------------------------------------------------------

  /** A file matches only as the last component. */
  predicate Matches(e: Entry, n: string, last: bool) {
    e.name == n && ((e.flags == USED && last) || e.flags == ISDIR)
  }

  /** The first entry from i on that matches, or ENTRIES. */
  function MatchFrom(fs: Fs, b: int, n: string, last: bool, i: nat): (k: nat)
    ensures k <= ENTRIES || k == i
    decreases ENTRIES - i
  {
    if i >= ENTRIES then i else if Matches(EntryOf(fs, b, i), n, last) then i else MatchFrom(fs, b, n, last, i + 1)
  }

  /** The first entry of block b that names block x, or ENTRIES. */
  function IndexFrom(fs: Fs, b: int, x: int, i: nat): (k: nat)
    ensures k <= ENTRIES || k == i
    decreases ENTRIES - i
  {
    if i >= ENTRIES then i else if EntryOf(fs, b, i).block == x then i else IndexFrom(fs, b, x, i + 1)
  }

  /** Hit: the entry found, and its block. Miss: the directory where it should have been, and the component that
      is not there; last tells whether that was the last one. */
  datatype Found = Hit(base: int, off: int, block: int) | Miss(base: int, name: string, last: bool)

  /** One component, from directory b. The parent is not reported as the entry "..", but as its own entry in the
      directory above it. */
  function Look(fs: Fs, b: int, n: string, last: bool): Found {
    var i := MatchFrom(fs, b, n, last, 0);
    if i == ENTRIES then Miss(b, n, last)
    else if i == PREV_DIR then
      var p := Parent(fs, b);
      var g := Parent(fs, p);
      Hit(g, IndexFrom(fs, g, p, 0), EntryOf(fs, g, IndexFrom(fs, g, p, 0)).block)
    else Hit(b, i, EntryOf(fs, b, i).block)
  }

  function Walk(fs: Fs, b: int, ns: seq<string>): Found
    requires ns != []
    decreases |ns|
  {
    var f := Look(fs, b, ns[0], |ns| == 1);
    if f.Miss? || |ns| == 1 then f else Walk(fs, f.block, ns[1..])
  }

  // ---------------------------------------------------------------------------------------------
  // Paths
  // ---------------------------------------------------------------------------------------------

  /** The names on the way from the root to directory b. */
  ghost function PathOf(fs: Fs, b: int): seq<string>
    requires Inv(fs) && b in fs.depth
    decreases fs.depth[b]
  {
    DirIs(fs, b);
    if b == ROOT then [] else PathOf(fs, Parent(fs, b)) + [EntryOf(fs, fs.owner[b].0, fs.owner[b].1).name]
  }

  /** The names on the way to what entry off of directory b stands for. */
  ghost function PathOfEntry(fs: Fs, b: int, off: int): seq<string>
    requires Inv(fs) && b in fs.depth
  {
    DirIs(fs, b);
    if EntryOf(fs, b, off).block == ROOT then []
    else if off == 0 then PathOf(fs, b)
    else if off == PREV_DIR then PathOf(fs, Parent(fs, b))
    else PathOf(fs, b) + [EntryOf(fs, b, off).name]
  }

  /** A path without "." and "..", from where path a leads: what the components mean. */
  function Canon(a: seq<string>, ns: seq<string>): seq<string>
    decreases |ns|
  {
    if ns == [] then a else
    Canon(if ns[0] == "." then a else if ns[0] == ".." then (if a == [] then [] else a[..|a| - 1])
        else a + [ns[0]], ns[1..])
  }

  // ---------------------------------------------------------------------------------------------
  // What a lookup finds
  // ---------------------------------------------------------------------------------------------

  lemma {:induction false} MatchFound(fs: Fs, b: int, n: string, last: bool, i: nat, k: nat)
    requires i <= k < ENTRIES && Matches(EntryOf(fs, b, k), n, last)
    requires forall j :: i <= j < k ==> !Matches(EntryOf(fs, b, j), n, last)
    ensures MatchFrom(fs, b, n, last, i) == k
    decreases k - i
  {
    if i < k { MatchFound(fs, b, n, last, i + 1, k); }
  }

  lemma {:induction false} MatchIs(fs: Fs, b: int, n: string, last: bool, i: nat)
    requires i <= ENTRIES
    ensures var k := MatchFrom(fs, b, n, last, i);
            && i <= k <= ENTRIES && (k < ENTRIES ==> Matches(EntryOf(fs, b, k), n, last))
            && forall j :: i <= j < k ==> !Matches(EntryOf(fs, b, j), n, last)
    decreases ENTRIES - i
  {
    if i < ENTRIES && !Matches(EntryOf(fs, b, i), n, last) { MatchIs(fs, b, n, last, i + 1); }
  }

  lemma {:induction false} IndexFound(fs: Fs, b: int, x: int, i: nat, k: nat)
    requires i <= k < ENTRIES && EntryOf(fs, b, k).block == x && forall j :: i <= j < k ==> EntryOf(fs, b, j).block != x
    ensures IndexFrom(fs, b, x, i) == k
    decreases k - i
  {
    if i < k { IndexFound(fs, b, x, i + 1, k); }
  }

  function OwnIndex(fs: Fs, b: int): int {
    if b == ROOT || b !in fs.owner then 0 else fs.owner[b].1
  }

  /** A directory's own entry, in the directory above it. */
  lemma OwnEntry(fs: Fs, b: int)
    requires Inv(fs) && b in fs.depth
    ensures Parent(fs, b) in fs.depth
    ensures var g := Parent(fs, b); var k := IndexFrom(fs, g, b, 0);
            k == OwnIndex(fs, b) && k < ENTRIES && EntryOf(fs, g, k).block == b
  {
    hide Inv;
    var g := Parent(fs, b);
    DirIs(fs, b);
    DirIs(fs, g);
    DirIs(fs, Parent(fs, g));
    if b == ROOT {
      IndexFound(fs, g, b, 0, 0);
    } else {
      OwnerIs(fs, b);
      var k := fs.owner[b].1;
      forall j | 0 <= j < k ensures EntryOf(fs, g, j).block != b {
        if j >= 2 { EntryIs(fs, g, j); }
      }
      IndexFound(fs, g, b, 0, k);
    }
  }

  /** Looking for ".", for "..", and for a name. */
  lemma LookDot(fs: Fs, b: int, last: bool)
    requires Inv(fs) && b in fs.depth
    ensures Look(fs, b, ".", last) == Hit(b, 0, b)
  {
    hide Inv;
    DirIs(fs, b);
    MatchFound(fs, b, ".", last, 0, 0);
  }

  lemma LookUp(fs: Fs, b: int, last: bool)
    requires Inv(fs) && b in fs.depth
    ensures var f := Look(fs, b, "..", last); var p := Parent(fs, b);
            p in fs.depth && f.Hit? && f.block == p && f.base == Parent(fs, p) && f.base in fs.depth
            && f.off == OwnIndex(fs, p) && 0 <= f.off < ENTRIES && EntryOf(fs, f.base, f.off).block == p
  {
    hide Inv;
    DirIs(fs, b);
    MatchFound(fs, b, "..", last, 0, 1);
    OwnEntry(fs, Parent(fs, b));
  }

  lemma LookName(fs: Fs, b: int, n: string, last: bool)
    requires Inv(fs) && b in fs.depth && n != "." && n != ".."
    ensures var f := Look(fs, b, n, last);
            f.Hit? ==> f.base == b && 2 <= f.off < ENTRIES && f.block == EntryOf(fs, b, f.off).block
                       && Matches(EntryOf(fs, b, f.off), n, last) && f.block != ROOT && f.block in fs.owner
                           && (!last ==> f.block in fs.depth)
    ensures Look(fs, b, n, last).Miss? ==> forall i :: 0 <= i < ENTRIES ==> !Matches(EntryOf(fs, b, i), n, last)
  {
    hide Inv;
    DirIs(fs, b);
    MatchIs(fs, b, n, last, 0);
    var k := MatchFrom(fs, b, n, last, 0);
    EntryIs(fs, b, k);
    if k < ENTRIES { OwnerIs(fs, EntryOf(fs, b, k).block); }
  }

  /** Whatever a lookup finds, its canonical path is what the path given means. */
  lemma {:induction false} WalkIsCanonical(fs: Fs, b: int, ns: seq<string>)
    requires Inv(fs) && b in fs.depth && ns != []
    ensures var f := Walk(fs, b, ns);
            f.Hit? ==> f.base in fs.depth && 0 <= f.off < ENTRIES && EntryOf(fs, f.base, f.off).block == f.block
                       && PathOfEntry(fs, f.base, f.off) == Canon(PathOf(fs, b), ns)
    decreases |ns|
  {
    hide Inv;
    StepIsCanonical(fs, b, ns[0], |ns| == 1);
    var f := Look(fs, b, ns[0], |ns| == 1);
    if f.Hit? {
      var a := Canon(PathOf(fs, b), [ns[0]]);
      assert Canon(PathOf(fs, b), ns) == Canon(a, ns[1..]);
      if |ns| > 1 { WalkIsCanonical(fs, f.block, ns[1..]); }
    }
  }

  lemma StepIsCanonical(fs: Fs, b: int, n: string, last: bool)
    requires Inv(fs) && b in fs.depth
    ensures var f := Look(fs, b, n, last);
            f.Hit? ==> f.base in fs.depth && 0 <= f.off < ENTRIES && EntryOf(fs, f.base, f.off).block == f.block
                       && PathOfEntry(fs, f.base, f.off) == Canon(PathOf(fs, b), [n])
                       && (!last ==> f.block in fs.depth && PathOf(fs, f.block) == Canon(PathOf(fs, b), [n]))
  {
    hide Inv;
    DirIs(fs, b);
    var p := PathOf(fs, b);
    assert Canon(p, [n]) == if n == "." then p else if n == ".." then (if p == [] then [] else p[..|p| - 1])
        else p + [n];
    if n == "." {
      LookDot(fs, b, last);
    } else if n == ".." {
      LookUp(fs, b, last);
      var q := Parent(fs, b);
      DirIs(fs, q);
      OwnerIs(fs, q);
      assert b != ROOT ==> p[..|p| - 1] == PathOf(fs, q);
    } else {
      LookName(fs, b, n, last);
      var f := Look(fs, b, n, last);
      if f.Hit? {
        EntryIs(fs, b, f.off);
        if f.block in fs.depth { DirIs(fs, f.block); }
      }
    }
  }

  /** A name that is there is found, where it is. */
  lemma LookFinds(fs: Fs, b: int, i: int, last: bool)
    requires Inv(fs) && b in fs.depth && 2 <= i < ENTRIES && EntryOf(fs, b, i).flags != 0
    requires last || EntryOf(fs, b, i).flags == ISDIR
    ensures Look(fs, b, EntryOf(fs, b, i).name, last) == Hit(b, i, EntryOf(fs, b, i).block)
  {
    hide Inv;
    DirIs(fs, b);
    EntryIs(fs, b, i);
    var n := EntryOf(fs, b, i).name;
    forall j | 0 <= j < i ensures !Matches(EntryOf(fs, b, j), n, last) {
      if j >= 2 { NamesAre(fs, b, j, i); EntryIs(fs, b, j); }
    }
    MatchFound(fs, b, n, last, 0, i);
  }

  /** Along a directory's own path a lookup comes to that directory. */
  lemma {:induction false} WalkDown(fs: Fs, b: int, rest: seq<string>)
    requires Inv(fs) && b in fs.depth && rest != []
    ensures PathOf(fs, b) + rest != [] && Walk(fs, ROOT, PathOf(fs, b) + rest) == Walk(fs, b, rest)
    decreases fs.depth[b]
  {
    hide Inv;
    DirIs(fs, b);
    if b == ROOT {
      assert PathOf(fs, b) + rest == rest;
    } else {
      OwnerIs(fs, b);
      var p, i := Parent(fs, b), fs.owner[b].1;
      var n := EntryOf(fs, p, i).name;
      assert PathOf(fs, b) + rest == PathOf(fs, p) + ([n] + rest);
      WalkDown(fs, p, [n] + rest);
      LookFinds(fs, p, i, false);
      assert ([n] + rest)[1..] == rest;
    }
  }

  /** Looking up the canonical path of a directory leads to it. */
  lemma PathLeadsBack(fs: Fs, b: int)
    requires Inv(fs) && b in fs.depth && b != ROOT
    ensures PathOf(fs, b) != [] && Walk(fs, ROOT, PathOf(fs, b)) == Hit(Parent(fs, b), OwnIndex(fs, b), b)
  {
    hide Inv;
    DirIs(fs, b);
    OwnerIs(fs, b);
    var p, i := Parent(fs, b), fs.owner[b].1;
    WalkDown(fs, p, [EntryOf(fs, p, i).name]);
    LookFinds(fs, p, i, true);
  }

  /** Looking up the canonical path of an entry leads to the same block. */
  lemma CanonicalPathLeadsBack(fs: Fs, b: int, off: int)
    requires Inv(fs) && b in fs.depth && 0 <= off < ENTRIES && EntryOf(fs, b, off).flags != 0
    ensures var ns := PathOfEntry(fs, b, off); var x := EntryOf(fs, b, off).block;
            if x == ROOT then ns == [] else ns != [] && Walk(fs, ROOT, ns).Hit? && Walk(fs, ROOT, ns).block == x
  {
    hide Inv;
    DirIs(fs, b);
    if off >= 2 {
      EntryIs(fs, b, off);
      OwnerIs(fs, EntryOf(fs, b, off).block);
      WalkDown(fs, b, [EntryOf(fs, b, off).name]);
      LookFinds(fs, b, off, true);
    } else if EntryOf(fs, b, off).block != ROOT {
      PathLeadsBack(fs, EntryOf(fs, b, off).block);
    }
  }

  /** The round trip: the path that a lookup's result has leads to the same block as the path looked up. */
  lemma PathRoundTrip(fs: Fs, ns: seq<string>)
    requires Inv(fs) && ns != [] && Walk(fs, ROOT, ns).Hit?
    ensures var f := Walk(fs, ROOT, ns); var c := Canon([], ns);
            && f.base in fs.depth && PathOfEntry(fs, f.base, f.off) == c
            && (f.block == ROOT <==> c == [])
            && (c != [] ==> Walk(fs, ROOT, c).Hit? && Walk(fs, ROOT, c).block == f.block)
  {
    hide Inv;
    DirIs(fs, ROOT);
    WalkIsCanonical(fs, ROOT, ns);
    WalkOff(fs, ROOT, ns);
    var f := Walk(fs, ROOT, ns);
    DirIs(fs, f.base);
    if f.off >= 2 { EntryIs(fs, f.base, f.off); }
    CanonicalPathLeadsBack(fs, f.base, f.off);
  }

  /** What is found is in use, and never the entry "..". */
  lemma LookOff(fs: Fs, b: int, n: string, last: bool)
    requires Inv(fs) && b in fs.depth
    ensures var f := Look(fs, b, n, last); f.Hit? ==> f.off != PREV_DIR && EntryOf(fs, f.base, f.off).flags != 0
  {
    hide Inv, Look;
    if n == "." {
      LookDot(fs, b, last);
      DirIs(fs, b);
    } else if n == ".." {
      LookUp(fs, b, last);
      DirIs(fs, Look(fs, b, n, last).base);
      DirIs(fs, Parent(fs, b));
      OwnerIs(fs, Parent(fs, b));
    } else {
      LookName(fs, b, n, last);
    }
  }

  lemma {:induction false} WalkOff(fs: Fs, b: int, ns: seq<string>)
    requires Inv(fs) && b in fs.depth && ns != []
    ensures var f := Walk(fs, b, ns); f.Hit? ==> f.off != PREV_DIR && EntryOf(fs, f.base, f.off).flags != 0
    decreases |ns|
  {
    hide Inv, Look, Canon, PathOfEntry;
    var n, last := ns[0], |ns| == 1;
    LookOff(fs, b, n, last);
    StepIsCanonical(fs, b, n, last);
    var f := Look(fs, b, n, last);
    if f.Hit? && !last { WalkOff(fs, f.block, ns[1..]); }
  }

  // ---------------------------------------------------------------------------------------------
  // Creating and deleting
  // ---------------------------------------------------------------------------------------------

  function Put(fs: Fs, b: int, i: int, e: Entry): seq<seq<Entry>>
    requires 0 <= b < |fs.dir| && 0 <= i < |fs.dir[b]|
  {
    fs.dir[b := fs.dir[b][i := e]]
  }

  /** Entry i of directory b is free, block x too, and the name is not there yet. */
  ghost predicate CanCreate(fs: Fs, b: int, i: int, n: string, x: int) {
    && Sizes(fs) && b in fs.depth && 0 <= b < fs.size && 2 <= i < ENTRIES && EntryOf(fs, b, i).flags == 0 && Name(n)
    && (forall j {:trigger EntryOf(fs, b, j)} :: 2 <= j < ENTRIES && EntryOf(fs, b, j).flags != 0 ==>
        EntryOf(fs, b, j).name != n)
    && 0 <= x < fs.size && !fs.bitmap[x]
  }

  /** GOSFS_Open with O_CREATE: an entry, and a block for its data. */
  function NewFile(fs: Fs, b: int, i: int, n: string, x: int): Fs
    requires 0 <= b < |fs.dir| && 0 <= i < |fs.dir[b]| && 0 <= x < |fs.bitmap|
  {
    fs.(dir := Put(fs, b, i, Entry(USED, n, x)), bitmap := fs.bitmap[x := true], owner := fs.owner[x := (b, i)])
  }

  /** A directory block with nothing in it but the entries for itself and its parent. */
  function EmptyDir(x: int, b: int): seq<Entry> {
    [Entry(ISDIR, ".", x), Entry(ISDIR, "..", b)] + seq(ENTRIES - 2, _ => ZERO)
  }

  /** GOSFS_Create_Directory. */
  function NewDir(fs: Fs, b: int, i: int, n: string, x: int): Fs
    requires 0 <= b < |fs.dir| && 0 <= i < |fs.dir[b]| && 0 <= x < |fs.bitmap| == |fs.dir| && b in fs.depth
  {
    fs.(dir := Put(fs, b, i, Entry(ISDIR, n, x))[x := EmptyDir(x, b)], bitmap := fs.bitmap[x := true],
        owner := fs.owner[x := (b, i)],
        depth := fs.depth[x := fs.depth[b] + 1])
  }

  /** The files and directories of a file system are the same as before but for what block x is. */
  lemma NewFileEntry(fs: Fs, b: int, i: int, n: string, x: int, c: int, j: int)
    requires Inv(fs) && CanCreate(fs, b, i, n, x)
    ensures EntryOf(NewFile(fs, b, i, n, x), c, j) == if c == b && j == i then Entry(USED, n, x) else EntryOf(fs, c, j)
  {
  }

  lemma FreshBlock(fs: Fs, x: int)
    requires Inv(fs) && 0 <= x < fs.size && !fs.bitmap[x]
    ensures x != 0 && x != ROOT && x !in fs.owner && x !in fs.depth
  {
    hide Inv;
    OwnerIs(fs, x);
    DirIs(fs, x);
  }

  lemma NewFileKeeps(fs: Fs, b: int, i: int, n: string, x: int)
    requires Inv(fs) && CanCreate(fs, b, i, n, x)
    ensures Inv(NewFile(fs, b, i, n, x))
  {
    hide Inv;
    var g := NewFile(fs, b, i, n, x);
    FreshBlock(fs, x);
    DirIs(fs, b);
    assert Sizes(g) && g.depth == fs.depth;
    forall c, j
      ensures EntryOf(g, c, j) == if c == b && j == i then Entry(USED, n, x) else EntryOf(fs, c, j)
    {
      NewFileEntry(fs, b, i, n, x, c, j);
    }
    hide EntryOf, Sizes;
    forall c ensures DirOk(g, c) { DirIs(fs, c); DirIs(fs, Parent(fs, c)); }
    forall c, j ensures EntryOk(g, c, j) { EntryIs(fs, c, j); }
    forall y ensures OwnerOk(g, y) && BitOk(g, y) { OwnerIs(fs, y); }
    forall c, j, k ensures NamesOk(g, c, j, k) { NamesAre(fs, c, j, k); }
    Assemble(g);
  }

  lemma NewDirEntry(fs: Fs, b: int, i: int, n: string, x: int, c: int, j: int)
    requires Inv(fs) && CanCreate(fs, b, i, n, x)
    ensures EntryOf(NewDir(fs, b, i, n, x), c, j) ==
            if c == x then (if j == 0 then Entry(ISDIR, ".", x) else if j == 1 then Entry(ISDIR, "..", b) else ZERO)
            else if c == b && j == i then Entry(ISDIR, n, x) else EntryOf(fs, c, j)
  {
  }

  lemma NewDirKeeps(fs: Fs, b: int, i: int, n: string, x: int)
    requires Inv(fs) && CanCreate(fs, b, i, n, x)
    ensures Inv(NewDir(fs, b, i, n, x))
  {
    hide Inv;
    var g := NewDir(fs, b, i, n, x);
    FreshBlock(fs, x);
    DirIs(fs, b);
    assert Sizes(g);
    forall c, j
      ensures EntryOf(g, c, j) ==
              if c == x then (if j == 0 then Entry(ISDIR, ".", x) else if j == 1 then Entry(ISDIR, "..", b) else ZERO)
              else if c == b && j == i then Entry(ISDIR, n, x) else EntryOf(fs, c, j)
    {
      NewDirEntry(fs, b, i, n, x, c, j);
    }
    hide EntryOf, Sizes;
    forall c ensures DirOk(g, c) { DirIs(fs, c); DirIs(fs, Parent(fs, c)); OwnerIs(fs, c); }
    forall c, j ensures EntryOk(g, c, j) { EntryIs(fs, c, j); DirIs(fs, EntryOf(fs, c, j).block); }
    forall y ensures OwnerOk(g, y) && BitOk(g, y) { OwnerIs(fs, y); }
    forall c, j, k ensures NamesOk(g, c, j, k) { NamesAre(fs, c, j, k); }
    Assemble(g);
  }

  /** What may be deleted: a file, or a directory with no entries of its own left. */
  ghost predicate CanDelete(fs: Fs, b: int, i: int) {
    && Sizes(fs) && b in fs.depth && 0 <= b < fs.size && 2 <= i < ENTRIES && EntryOf(fs, b, i).flags != 0
    && 0 <= EntryOf(fs, b, i).block < fs.size
    && (EntryOf(fs, b, i).flags == ISDIR ==>
        forall j {:trigger EntryOf(fs, EntryOf(fs, b, i).block, j)} :: 2 <= j < ENTRIES ==>
        EntryOf(fs, EntryOf(fs, b, i).block, j).flags == 0)
  }

  /** GOSFS_Delete: the block is given up and cleared, and so is the entry. */
  function Deleted(fs: Fs, b: int, i: int): Fs
    requires 0 <= b < |fs.dir| && 0 <= i < |fs.dir[b]| && 0 <= EntryOf(fs, b, i).block < |fs.bitmap| == |fs.dir|
  {
    var x := EntryOf(fs, b, i).block;
    fs.(dir := fs.dir[x := seq(ENTRIES, _ => ZERO)][b := fs.dir[b][i := ZERO]], bitmap := fs.bitmap[x := false],
        owner := fs.owner - {x}, depth := fs.depth - {x})
  }

  lemma DeletedEntry(fs: Fs, b: int, i: int, c: int, j: int)
    requires Inv(fs) && CanDelete(fs, b, i)
    ensures EntryOf(Deleted(fs, b, i), c, j) ==
            if c == b then (if j == i then ZERO else EntryOf(fs, b, j))
            else if c == EntryOf(fs, b, i).block then ZERO else EntryOf(fs, c, j)
  {
  }

  /** The block of a deletable entry is neither the superblock, nor the root, nor a parent of anything. */
  lemma NoChildren(fs: Fs, b: int, i: int, c: int)
    requires Inv(fs) && CanDelete(fs, b, i)
    ensures var x := EntryOf(fs, b, i).block;
            x != 0 && x != ROOT && x != b && x in fs.owner && fs.owner[x] == (b, i)
                && (c in fs.depth && c != x ==> Parent(fs, c) != x)
  {
    hide Inv;
    var x := EntryOf(fs, b, i).block;
    EntryIs(fs, b, i);
    OwnerIs(fs, x);
    DirIs(fs, x);
    DirIs(fs, b);
    DirIs(fs, c);
    if c in fs.depth && c != ROOT {
      OwnerIs(fs, c);
      EntryIs(fs, x, fs.owner[c].1);
    }
  }

  lemma DeletedKeeps(fs: Fs, b: int, i: int)
    requires Inv(fs) && CanDelete(fs, b, i)
    ensures Inv(Deleted(fs, b, i))
  {
    hide Inv;
    var g, x := Deleted(fs, b, i), EntryOf(fs, b, i).block;
    NoChildren(fs, b, i, ROOT);
    DirIs(fs, b);
    EntryIs(fs, b, i);
    assert Sizes(g);
    forall c, j
      ensures EntryOf(g, c, j) == if c == b then (if j == i then ZERO else EntryOf(fs, b, j)) else if c == x then ZERO
          else EntryOf(fs, c, j)
    {
      DeletedEntry(fs, b, i, c, j);
    }
    forall c ensures c in fs.depth && c != x ==> Parent(fs, c) != x { NoChildren(fs, b, i, c); }
    hide EntryOf, Sizes, CanDelete;
    forall c ensures DirOk(g, c) { DirIs(fs, c); DirIs(fs, Parent(fs, c)); OwnerIs(fs, c); }
    forall c, j ensures EntryOk(g, c, j) { EntryIs(fs, c, j); DirIs(fs, EntryOf(fs, c, j).block); }
    forall y ensures OwnerOk(g, y) && BitOk(g, y) { OwnerIs(fs, y); }
    forall c, j, k ensures NamesOk(g, c, j, k) { NamesAre(fs, c, j, k); }
    Assemble(g);
  }

  /** Exactly the files and the directories with nothing in them can be deleted. */
  lemma DeletableIff(fs: Fs, b: int, i: int)
    requires Inv(fs) && b in fs.depth && 2 <= i < ENTRIES && EntryOf(fs, b, i).flags != 0
    ensures EntryOf(fs, b, i).flags == USED || EntryOf(fs, b, i).flags == ISDIR
    ensures CanDelete(fs, b, i) <==>
            EntryOf(fs, b, i).flags == USED
            || !exists j :: 2 <= j < ENTRIES && EntryOf(fs, EntryOf(fs, b, i).block, j).flags != 0
  {
    hide Inv;
    EntryIs(fs, b, i);
    OwnerIs(fs, EntryOf(fs, b, i).block);
    DirIs(fs, b);
  }

  /** Deleting undoes creating: what was created, a file or a directory, can be deleted, and then every entry, block and
      bit is as it was before, but that the entry and the block used have been cleared. */
  lemma DeletedUndoes(fs: Fs, b: int, i: int, n: string, x: int, isDir: bool)
    requires Inv(fs) && CanCreate(fs, b, i, n, x)
    ensures var g := if isDir then NewDir(fs, b, i, n, x) else NewFile(fs, b, i, n, x);
            && CanDelete(g, b, i) && EntryOf(g, b, i).block == x
            && Deleted(g, b, i).bitmap == fs.bitmap
            && forall c, j :: EntryOf(Deleted(g, b, i), c, j) == if (c == b && j == i) || c == x then ZERO
                              else EntryOf(fs, c, j)
  {
    hide Inv;
    var g := if isDir then NewDir(fs, b, i, n, x) else NewFile(fs, b, i, n, x);
    FreshBlock(fs, x);
    DirIs(fs, b);
    NewFileKeeps(fs, b, i, n, x);
    NewDirKeeps(fs, b, i, n, x);
    if isDir {
      forall j ensures EntryOf(g, x, j) == EntryOf(NewDir(fs, b, i, n, x), x, j) { NewDirEntry(fs, b, i, n, x, x, j); }
      NewDirEntry(fs, b, i, n, x, b, i);
    } else {
      NewFileEntry(fs, b, i, n, x, b, i);
    }
    forall j | isDir && 2 <= j < ENTRIES ensures EntryOf(g, x, j).flags == 0 { NewDirEntry(fs, b, i, n, x, x, j); }
    assert CanDelete(g, b, i);
    hide NewDir, NewFile;
    forall c, j ensures EntryOf(Deleted(g, b, i), c, j) == if (c == b && j == i) || c == x then ZERO
                        else EntryOf(fs, c, j) {
      DeletedEntry(g, b, i, c, j);
      NewDirEntry(fs, b, i, n, x, c, j);
      NewFileEntry(fs, b, i, n, x, c, j);
    }
  }

  /** A new file or directory is found under its name. */
  lemma CreatedIsFound(fs: Fs, b: int, i: int, n: string, x: int, last: bool)
    requires Inv(fs) && CanCreate(fs, b, i, n, x)
    ensures Look(NewDir(fs, b, i, n, x), b, n, last) == Hit(b, i, x)
    ensures Look(NewFile(fs, b, i, n, x), b, n, true) == Hit(b, i, x)
  {
    hide Inv, Look;
    DirIs(fs, b);
    FreshBlock(fs, x);
    NewFileKeeps(fs, b, i, n, x);
    NewDirKeeps(fs, b, i, n, x);
    NewFileEntry(fs, b, i, n, x, b, i);
    NewDirEntry(fs, b, i, n, x, b, i);
    LookFinds(NewFile(fs, b, i, n, x), b, i, true);
    LookFinds(NewDir(fs, b, i, n, x), b, i, last);
  }

  /** A deleted name is not found any more. */
  lemma DeletedIsNotFound(fs: Fs, b: int, i: int)
    requires Inv(fs) && CanDelete(fs, b, i)
    ensures Look(Deleted(fs, b, i), b, EntryOf(fs, b, i).name, true) == Miss(b, EntryOf(fs, b, i).name, true)
  {
    hide Inv;
    var g, n := Deleted(fs, b, i), EntryOf(fs, b, i).name;
    DirIs(fs, b);
    NoChildren(fs, b, i, b);
    EntryIs(fs, b, i);
    forall j | 0 <= j < ENTRIES ensures !Matches(EntryOf(g, b, j), n, true) {
      DeletedEntry(fs, b, i, b, j);
      NamesAre(fs, b, i, j);
      EntryIs(fs, b, j);
    }
    MatchIs(g, b, n, true, 0);
  }

  /** What is missing is a name, and no entry has it. */
  lemma MissingName(fs: Fs, b: int, n: string, last: bool)
    requires Inv(fs) && b in fs.depth && Look(fs, b, n, last).Miss?
    ensures n != "." && n != ".."
    ensures last ==> forall j {:trigger EntryOf(fs, b, j)} :: 2 <= j < ENTRIES && EntryOf(fs, b, j).flags != 0 ==>
        EntryOf(fs, b, j).name != n
  {
    hide Inv, Look;
    if n == "." { LookDot(fs, b, last); }
    if n == ".." { LookUp(fs, b, last); }
    LookName(fs, b, n, last);
    forall j | 2 <= j < ENTRIES && EntryOf(fs, b, j).flags != 0 && last ensures EntryOf(fs, b, j).name != n {
      EntryIs(fs, b, j);
      assert !Matches(EntryOf(fs, b, j), n, last);
    }
  }

  lemma {:induction false} WalkMisses(fs: Fs, b: int, ns: seq<string>)
    requires Inv(fs) && b in fs.depth && ns != [] && Walk(fs, b, ns).Miss?
    ensures var f := Walk(fs, b, ns);
            f.base in fs.depth && Look(fs, f.base, f.name, f.last) == f && f.name in ns
    decreases |ns|
  {
    hide Inv, Look, Canon, PathOfEntry;
    var last := |ns| == 1;
    StepIsCanonical(fs, b, ns[0], last);
    var f := Look(fs, b, ns[0], last);
    if f.Miss? { MissIs(fs, b, ns[0], last); }
    if f.Hit? && !last { WalkMisses(fs, f.block, ns[1..]); }
  }

  lemma MissIs(fs: Fs, b: int, n: string, last: bool)
    ensures Look(fs, b, n, last).Miss? ==> Look(fs, b, n, last) == Miss(b, n, last)
  {
  }

  /** The directory in which the last component of a path is looked for. */
  lemma {:induction false} WalkEndsIn(fs: Fs, b: int, ns: seq<string>) returns (d: int)
    requires Inv(fs) && b in fs.depth && ns != [] && Walk(fs, b, ns).Hit?
    ensures d in fs.depth && Walk(fs, b, ns) == Look(fs, d, ns[|ns| - 1], true)
    decreases |ns|
  {
    hide Inv, Look, Canon, PathOfEntry;
    StepIsCanonical(fs, b, ns[0], |ns| == 1);
    if |ns| == 1 {
      d := b;
    } else {
      d := WalkEndsIn(fs, Look(fs, b, ns[0], false).block, ns[1..]);
    }
  }

  /** A named entry is never an entry for the directory it is in. */
  lemma NameBelow(fs: Fs, d: int, n: string)
    requires Inv(fs) && d in fs.depth && n != "." && n != ".." && Look(fs, d, n, true).Hit?
    ensures var f := Look(fs, d, n, true);
            f.base == d && f.block != d && f.block != ROOT && 2 <= f.off < ENTRIES
            && EntryOf(fs, d, f.off).flags != 0 && EntryOf(fs, d, f.off).block == f.block
                && EntryOf(fs, d, f.off).name == n
  {
    hide Inv;
    LookName(fs, d, n, true);
    var f := Look(fs, d, n, true);
    EntryIs(fs, d, f.off);
    OwnerIs(fs, f.block);
    DirIs(fs, d);
  }

  /** What "..", as the last component, leads to: the parent, found in its own parent, which is another block unless
      the parent is the root. */
  lemma UpAbove(fs: Fs, d: int)
    requires Inv(fs) && d in fs.depth
    ensures var f := Look(fs, d, "..", true);
            f.Hit? && f.base in fs.depth && f.block in fs.depth && (f.base == f.block <==> f.block == ROOT)
            && (f.block == ROOT ==> f.off == 0)
            && (f.block != ROOT ==> 2 <= f.off < ENTRIES && EntryOf(fs, f.base, f.off).flags != 0
                                    && EntryOf(fs, f.base, f.off).block == f.block)
  {
    hide Inv;
    LookUp(fs, d, true);
    var p := Parent(fs, d);
    DirIs(fs, p);
    OwnerIs(fs, p);
  }

  /** Exactly which paths end at an entry that names the very block it is in: those that end in "." and those that
      mean the root. */
  lemma SameBlockIff(fs: Fs, ns: seq<string>)
    requires Inv(fs) && ns != [] && Walk(fs, ROOT, ns).Hit?
    ensures var f := Walk(fs, ROOT, ns);
            && (f.base == f.block <==> ns[|ns| - 1] == "." || Canon([], ns) == [])
            && f.base in fs.depth && 0 <= f.off < ENTRIES && (f.base == f.block ==> f.off == 0)
            && (f.base != f.block ==> 2 <= f.off && EntryOf(fs, f.base, f.off).flags != 0)
            && EntryOf(fs, f.base, f.off).block == f.block
  {
    hide Inv, Look, Walk, Canon, PathOf, PathOfEntry;
    DirIs(fs, ROOT);
    WalkIsCanonical(fs, ROOT, ns);
    PathRoundTrip(fs, ns);
    var d := WalkEndsIn(fs, ROOT, ns);
    var n := ns[|ns| - 1];
    if n == "." {
      LookDot(fs, d, true);
    } else if n == ".." {
      UpAbove(fs, d);
    } else {
      NameBelow(fs, d, n);
    }
  }

  /** On every volume "/.." ends at the root's entry for itself. */
  lemma UpFromRoot(fs: Fs)
    requires Inv(fs)
    ensures Walk(fs, ROOT, [".."]) == Hit(ROOT, 0, ROOT) && Canon([], [".."]) == []
  {
    hide Inv;
    DirIs(fs, ROOT);
    LookUp(fs, ROOT, true);
  }

  /** A directory reached by ".." has something in it: where the path came from. */
  lemma UpIsNotEmpty(fs: Fs, ns: seq<string>)
    requires Inv(fs) && ns != [] && Walk(fs, ROOT, ns).Hit? && ns[|ns| - 1] == ".." && Canon([], ns) != []
    ensures var f := Walk(fs, ROOT, ns); !CanDelete(fs, f.base, f.off)
  {
    hide Inv, Look, Walk, Canon;
    DirIs(fs, ROOT);
    SameBlockIff(fs, ns);
    var d := WalkEndsIn(fs, ROOT, ns);
    var f := Walk(fs, ROOT, ns);
    LookUp(fs, d, true);
    UpAbove(fs, d);
    DirIs(fs, d);
    OwnerIs(fs, d);
    DirIs(fs, f.block);
    EntryIs(fs, f.base, f.off);
    assert EntryOf(fs, f.block, fs.owner[d].1).flags != 0;
  }

  // ---------------------------------------------------------------------------------------------
  // A new volume
  // ---------------------------------------------------------------------------------------------

  /** Superblock and root are allocated, and the root has entries for itself only. */
  ghost predicate Formatted(fs: Fs) {
    && Sizes(fs) && fs.depth == map[ROOT := 0] && fs.owner == map[]
    && fs.dir[ROOT] == EmptyDir(ROOT, ROOT) && forall x :: 0 <= x < fs.size ==> (fs.bitmap[x] <==> x <= ROOT)
  }

  lemma FormattedInv(fs: Fs)
    requires Formatted(fs)
    ensures Inv(fs)
  {
    assert forall i :: 2 <= i < ENTRIES ==> EntryOf(fs, ROOT, i) == ZERO;
  }
}
