/** Path lookup, creation, deletion and path reconstruction in GOSFS (src/geekos/gosfs.c, src/geekos/vfs.c). */
module Gosfs {
  import opened GosfsSpec

  /** Stuck: the call waits for a buffer that it holds itself, or that is never released, and does not return. */
  datatype Status = Ok | NotFound | Unspecified | Exists | IsDirectory | Stuck

  /** The superblock, whose buffer is in use from mounting on. */
  const SUPER_BLOCK := 0

  /** A path as it is written. */
  function Render(ns: seq<string>): string {
    if ns == [] then "" else "/" + ns[0] + Render(ns[1..])
  }

  ghost predicate Components(ns: seq<string>) {
    forall i {:trigger ns[i]} :: 0 <= i < |ns| ==> Component(ns[i])
  }

  /** n is the first component of path, and rest what follows it. */
  predicate Splits(path: string, n: string, rest: string) {
    Component(n) && path == "/" + n + rest && (rest == "" || rest[0] == '/')
  }

  /** Unpack_Path: the first component, and the rest of the path, "/" if there is none. */
  method UnpackPath(path: string) returns (ok: bool, prefix: string, suffix: string)
    ensures ok ==> path != "" && path[0] == '/' && Component(prefix)
    ensures ok ==>
        path == "/" + prefix + (if suffix == "/" && path == "/" + prefix then "" else suffix)
        && suffix != "" && suffix[0] == '/'
    ensures forall n, rest :: Splits(path, n, rest) ==> ok && prefix == n && suffix == if rest == "" then "/" else rest
  {
    if path == "" || path[0] != '/' { return false, "", ""; }
    var i := 1;
    while i < |path| && path[i] != '/'
      invariant 1 <= i <= |path| && '/' !in path[1..i]
    {
      assert path[1..i + 1] == path[1..i] + [path[i]];
      i := i + 1;
    }
    prefix := path[1..i];
    assert path == "/" + prefix + path[i..];
    forall n, rest | Splits(path, n, rest) ensures prefix == n && path[i..] == rest {
      FirstSlash(path, n, rest, i);
    }
    if |prefix| == 0 || |prefix| > MAX_PREFIX_LEN { return false, prefix, ""; }
    ok := true;
    suffix := if i == |path| then "/" else path[i..];
  }

  lemma FirstSlash(path: string, n: string, rest: string, i: nat)
    requires path == "/" + n + rest && '/' !in n && (rest == "" || rest[0] == '/')
    requires 1 <= i <= |path| && '/' !in path[1..i] && (i == |path| || path[i] == '/')
    ensures i == 1 + |n| && path[1..i] == n && path[i..] == rest
  {
    assert forall k {:trigger path[k]} :: 1 <= k < i ==> path[k] == path[1..i][k - 1];
    assert forall k {:trigger n[k]} :: 0 <= k < |n| ==> path[1 + k] == n[k];
    assert rest != "" ==> path[1 + |n|] == rest[0];
  }

  /** path is how a path with components ns is written, with or without a slash at the end. */
  ghost predicate Written(path: string, ns: seq<string>) {
    Components(ns) && path != "" && (path == Render(ns) || path == Render(ns) + "/")
  }

  /** What the loop of a lookup takes off the path. */
  lemma WrittenSplit(path: string, ns: seq<string>) returns (rest: string)
    requires Written(path, ns) && ns != []
    ensures Splits(path, ns[0], rest)
    ensures (|ns| == 1 <==> rest == "" || rest == "/") && (|ns| > 1 ==> Written(rest, ns[1..]))
  {
    var slash := if path == Render(ns) then "" else "/";
    rest := Render(ns[1..]) + slash;
    assert Render(ns) == "/" + ns[0] + Render(ns[1..]);
    assert path == "/" + ns[0] + rest;
    assert Components(ns[1..]);
    if |ns| > 1 {
      assert Component(ns[1]);
      assert Render(ns[1..]) == "/" + ns[1] + Render(ns[1..][1..]);
      assert |rest| >= 2 && rest[0] == '/';
      assert slash == "" ==> rest == Render(ns[1..]);
    } else {
      assert Render(ns[1..]) == "";
    }
  }

  /** Unpack_Path, on a path with components. */
  method NextComponent(path: string, ghost ns: seq<string>) returns (prefix: string, suffix: string)
    requires Written(path, ns) && ns != []
    ensures prefix == ns[0] && (suffix == "/" <==> |ns| == 1) && (|ns| > 1 ==> Written(suffix, ns[1..]))
  {
    ghost var rest := WrittenSplit(path, ns);
    hide Written, Splits;
    var ok;
    ok, prefix, suffix := UnpackPath(path);
    assert prefix == ns[0] && suffix == if rest == "" then "/" else rest;
  }

  class Volume {
    /** The blocks, as directory entries; the superblock's size, bitmap and root. */
    const dir: array<seq<Entry>>
    const bitmap: array<bool>
    ghost var depth: map<int, nat>
    ghost var owner: map<int, (int, int)>

    ghost function View(): Fs
      reads this, dir, bitmap
    {
      Fs(dir.Length, dir[..], bitmap[..], depth, owner)
    }

    ghost predicate Valid()
      reads this, dir, bitmap
    {
      Inv(View())
    }

    /** GOSFS_Format, and a mount: of a root directory block that was all zero. */
    constructor (size: nat)
      requires size >= 2
      ensures Valid() && Formatted(View()) && View().size == size
    {
      dir := new seq<Entry>[size](_ => seq(ENTRIES, _ => ZERO));
      bitmap := new bool[size](_ => false);
      depth, owner := map[ROOT := 0], map[];
      new;
      bitmap[SUPER_BLOCK] := true;
      bitmap[ROOT] := true;
      dir[ROOT] := dir[ROOT][0 := Entry(ISDIR, ".", ROOT)];
      dir[ROOT] := dir[ROOT][1 := Entry(ISDIR, "..", ROOT)];
      assert dir[ROOT] == EmptyDir(ROOT, ROOT);
      FormattedInv(View());
    }

    lemma Block(b: int)
      requires Valid()
      ensures b in depth ==> 1 <= b < dir.Length && |dir[b]| == ENTRIES && b < bitmap.Length && dir[b] == View().dir[b]
      ensures ROOT in depth
    {
      DirIs(View(), b);
      DirIs(View(), ROOT);
    }

    /** The scan of one directory block: the entry that matches, or ENTRIES, and the first free one, or -1. */
    method Scan(base: int, prefix: string, last: bool) returns (i: nat, minFree: int)
      requires Valid() && base in depth
      ensures i == MatchFrom(View(), base, prefix, last, 0) <= ENTRIES
      ensures i == ENTRIES ==> FirstFree(View(), base, minFree)
    {
      Block(base);
      DirIs(View(), base);
      hide Inv, MatchFrom;
      i, minFree := 0, -1;
      while i < ENTRIES
        invariant i <= ENTRIES
        invariant forall j :: 0 <= j < i ==> !Matches(EntryOf(View(), base, j), prefix, last)
        invariant minFree == -1 || (2 <= minFree < i && EntryOf(View(), base, minFree).flags == 0)
        invariant forall j {:trigger EntryOf(View(), base, j)} :: 2 <= j < (if minFree == -1 then i else minFree) ==>
            EntryOf(View(), base, j).flags != 0
      {
        var entry := dir[base][i];
        assert entry == EntryOf(View(), base, i);
        EntryIs(View(), base, i);
        if entry.name == prefix && ((entry.flags == USED && last) || entry.flags == ISDIR) {
          MatchFound(View(), base, prefix, last, 0, i);
          return;
        } else if minFree == -1 && entry.flags % 2 == 0 && entry.flags / 2 % 2 == 0 {
          minFree := i;
        }
        i := i + 1;
      }
      NoMatch(View(), base, prefix, last);
    }

    /** The search of a directory block for the entry that names block x. */
    method FindBlock(base: int, x: int) returns (j: nat)
      requires Valid() && base in depth
      ensures j == IndexFrom(View(), base, x, 0) <= ENTRIES
      ensures j == ENTRIES ==> forall k :: 0 <= k < ENTRIES ==> EntryOf(View(), base, k).block != x
    {
      Block(base);
      hide Inv, IndexFrom;
      j := 0;
      while j < ENTRIES
        invariant j <= ENTRIES && forall k :: 0 <= k < j ==> EntryOf(View(), base, k).block != x
      {
        assert dir[base][j] == EntryOf(View(), base, j);
        if dir[base][j].block == x {
          IndexFound(View(), base, x, 0, j);
          return;
        }
        j := j + 1;
      }
      NoIndex(View(), base, x);
    }

    /** Do_GOSFS_Lookup: the entry the path ends at and its directory; or, if there is none, the directory where a
        component is missing, that component, and the first free entry to put it in. For the root alone nothing is
        looked up: the result is the superblock, and off is not set. */
    method Lookup(path: string, ghost ns: seq<string>) returns (rc: Status, base: int, off: int, suffix: string)
      requires Valid() && Written(path, ns)
      ensures ns == [] ==> rc == Ok && base == SUPER_BLOCK
      ensures ns != [] ==> match Walk(View(), ROOT, ns)
                           case Hit(b, o, x) => rc == Ok && base == b && off == o
                           case Miss(b, n, last) =>
                               rc == (if last then Unspecified else NotFound) && base == b && suffix == n
      ensures rc != Ok ==> base in depth && FirstFree(View(), base, off)
    {
      Block(ROOT);
      hide Inv, Walk, MatchFrom, IndexFrom, FirstFree, Written;
      RootAlone(path, ns);
      if path == "/" { return Ok, SUPER_BLOCK, *, ""; }
      var p, cur := path, ROOT;
      ghost var rest := ns;
      while true
        invariant rest != [] && Written(p, rest) && cur in depth && Walk(View(), ROOT, ns) == Walk(View(), cur, rest)
        decreases |rest|
      {
        WalkStep(View(), cur, rest);
        var prefix, tail := NextComponent(p, rest);
        var i, minFree := Scan(cur, prefix, tail == "/");
        if i == ENTRIES {
          return if tail == "/" then Unspecified else NotFound, cur, minFree, prefix;
        }
        base, off, cur := Enter(cur, i, prefix, tail == "/");
        if tail == "/" { return Ok, base, off, prefix; }
        p, rest := tail, rest[1..];
      }
    }

    /** The entry found: where it is, and the block that the lookup goes on in. The entry "..", which is always
        the second, is replaced by the parent's own entry. */
    method Enter(cur: int, i: nat, ghost n: string, ghost last: bool) returns (base: int, off: int, next: int)
      requires Valid() && cur in depth && i == MatchFrom(View(), cur, n, last, 0) < ENTRIES
      ensures Look(View(), cur, n, last) == Hit(base, off, next)
      ensures base in depth && (!last ==> next in depth)
    {
      Block(cur);
      StepIsCanonical(View(), cur, n, last);
      hide Inv, MatchFrom, IndexFrom, PathOf, PathOfEntry, Canon;
      if i == PREV_DIR {
        var blk := dir[cur][i].block;
        DirIs(View(), cur);
        Block(blk);
        base := dir[blk][PREV_DIR].block;
        DirIs(View(), blk);
        Block(base);
        OwnEntry(View(), blk);
        off := FindBlock(base, blk);
        next := dir[base][off].block;
      } else {
        base, off, next := cur, i, dir[cur][i].block;
      }
    }

    /** Find_First_Free_Bit. */
    method FindFreeBit() returns (x: int)
      ensures x == -1 <==> forall i :: 0 <= i < bitmap.Length ==> bitmap[i]
      ensures x != -1 ==> 0 <= x < bitmap.Length && !bitmap[x] && forall i :: 0 <= i < x ==> bitmap[i]
    {
      for i := 0 to bitmap.Length
        invariant forall j :: 0 <= j < i ==> bitmap[j]
      {
        if !bitmap[i] { return i; }
      }
      return -1;
    }

    /** There is a free entry in the directory where the path ends, and a free block. */
    ghost predicate HasRoom(ns: seq<string>)
      requires ns != []
      reads this, dir, bitmap
    {
      var f := Walk(View(), ROOT, ns);
      f.Miss? && f.last ==>
        && (exists j {:trigger EntryOf(View(), f.base, j)} :: 2 <= j < ENTRIES && EntryOf(View(), f.base, j).flags == 0)
        && (exists x :: 0 <= x < bitmap.Length && !bitmap[x])
    }

    /** What a failed lookup leaves for a creation. */
    lemma Missing(ns: seq<string>, off: int)
      requires Valid() && ns != [] && Components(ns) && Walk(View(), ROOT, ns).Miss? && Walk(View(), ROOT, ns).last
          && HasRoom(ns)
      requires FirstFree(View(), Walk(View(), ROOT, ns).base, off)
      ensures var f := Walk(View(), ROOT, ns);
              f.base in depth && 2 <= off < ENTRIES && exists x :: 0 <= x < bitmap.Length && !bitmap[x]
      ensures var f := Walk(View(), ROOT, ns);
              forall x :: 0 <= x < bitmap.Length && !bitmap[x] ==> CanCreate(View(), f.base, off, f.name, x)
    {
      hide Inv, Walk;
      var f := Walk(View(), ROOT, ns);
      DirIs(View(), ROOT);
      WalkMisses(View(), ROOT, ns);
      MissingName(View(), f.base, f.name, true);
      DirIs(View(), f.base);
      var k :| 0 <= k < |ns| && ns[k] == f.name;
    }

    /** GOSFS_Open with O_CREATE: the file at the path, made if it is not there. */
    method OpenOrCreate(path: string, ghost ns: seq<string>) returns (rc: Status, base: int, off: int)
      requires Valid() && Written(path, ns) && (ns != [] ==> HasRoom(ns))
      modifies `owner, dir, bitmap
      ensures Valid()
      ensures ns == [] ==> rc == Stuck && View() == old(View())
      ensures ns != [] ==> rc == match old(Walk(View(), ROOT, ns))
                                 case Hit(b, o, x) => if EntryOf(old(View()), b, o).flags == ISDIR then IsDirectory
                                     else Ok
                                 case Miss(b, n, last) => if last then Ok else NotFound
      ensures ns != [] ==> match old(Walk(View(), ROOT, ns))
                           case Hit(b, o, x) => View() == old(View()) && base == b && off == o
                           case Miss(b, n, last) =>
                             if last then base == b && Created(old(View()), View(), b, off, n, false)
                             else View() == old(View())
    {
      ghost var fs := View();
      hide Inv, Walk, Written, HasRoom, FirstFree;
      var held := {SUPER_BLOCK};
      var found, suffix;
      found, base, off, suffix := Lookup(path, ns);
      WrittenParts(path, ns);
      StuckAtRoot(ns);
      if found != NotFound && base in held { return Stuck, base, off; }
      WalkIn(ns);
      if found == NotFound { return NotFound, base, off; }
      if found == Unspecified {
        Missing(ns, off);
        Block(base);
        var freeBit := FindFreeBit();
        assert FirstFreeBit(fs, freeBit);
        hide FirstFreeBit;
        NewFileKeeps(fs, base, off, suffix, freeBit);
        dir[base] := dir[base][off := Entry(USED, suffix, freeBit)];
        bitmap[freeBit] := true;
        owner := owner[freeBit := (base, off)];
        assert View() == NewFile(fs, base, off, suffix, freeBit);
        return Ok, base, off;
      }
      Block(base);
      if dir[base][off].flags == ISDIR { return IsDirectory, base, off; }
      return Ok, base, off;
    }

    /** GOSFS_Create_Directory. */
    method CreateDirectory(path: string, ghost ns: seq<string>) returns (rc: Status)
      requires Valid() && Written(path, ns) && (ns != [] ==> HasRoom(ns))
      modifies `owner, `depth, dir, bitmap
      ensures Valid()
      ensures ns == [] ==> rc == Exists
      ensures ns != [] ==> rc == match old(Walk(View(), ROOT, ns))
                                 case Hit(_, _, _) => Exists
                                 case Miss(_, _, last) => if last then Ok else NotFound
      ensures rc != Ok ==> View() == old(View())
      ensures rc == Ok ==>
          ns != [] && var f := old(Walk(View(), ROOT, ns));
          exists i :: Created(old(View()), View(), f.base, i, f.name, true)
    {
      ghost var fs := View();
      hide Inv, Walk, Written, HasRoom, FirstFree;
      var found, base, off, suffix := Lookup(path, ns);
      WrittenParts(path, ns);
      if found == Ok { return Exists; }
      WalkIn(ns);
      if found == NotFound { return NotFound; }
      Missing(ns, off);
      Block(base);
      var freeBit := FindFreeBit();
      assert FirstFreeBit(fs, freeBit);
      hide FirstFreeBit;
      NewDirKeeps(fs, base, off, suffix, freeBit);
      FreshBlock(fs, freeBit);
      dir[base] := dir[base][off := Entry(ISDIR, suffix, freeBit)];
      bitmap[freeBit] := true;
      dir[freeBit] := seq(ENTRIES, _ => ZERO);
      dir[freeBit] := dir[freeBit][0 := Entry(ISDIR, ".", freeBit)];
      dir[freeBit] := dir[freeBit][1 := Entry(ISDIR, "..", base)];
      owner, depth := owner[freeBit := (base, off)], depth[freeBit := depth[base] + 1];
      assert dir[freeBit] == EmptyDir(freeBit, base);
      assert View() == NewDir(fs, base, off, suffix, freeBit);
      assert Created(fs, View(), base, off, suffix, true);
      return Ok;
    }

    /** Whatever a lookup ends at is an entry of some directory. */
    lemma WalkIn(ns: seq<string>)
      requires Valid() && ns != []
      ensures var f := Walk(View(), ROOT, ns); f.base in depth && (f.Hit? ==> 0 <= f.off < ENTRIES)
    {
      hide Inv, Walk, PathOfEntry, PathOf, Canon;
      DirIs(View(), ROOT);
      WalkIsCanonical(View(), ROOT, ns);
      if Walk(View(), ROOT, ns).Miss? { WalkMisses(View(), ROOT, ns); }
    }

    /** GOSFS_Delete: a file, or a directory with nothing in it. The buffer of the entry's directory is held from the
        lookup on, and a directory is looked into through its own buffer: if that is the same one, or the superblock's,
        the call waits for ever, and nothing has changed. */
    method Delete(path: string, ghost ns: seq<string>) returns (rc: Status)
      requires Valid() && Written(path, ns)
      modifies `owner, `depth, dir, bitmap
      ensures Valid()
      ensures ns == [] ==> rc == Stuck
      ensures ns != [] ==> rc == match old(Walk(View(), ROOT, ns))
                                 case Hit(b, o, x) =>
                                   if b == x then Stuck else if CanDelete(old(View()), b, o) then Ok else Unspecified
                                 case Miss(_, _, _) => NotFound
      ensures rc != Ok ==> View() == old(View())
      ensures rc == Ok ==> ns != [] && var f := old(Walk(View(), ROOT, ns));
                           CanDelete(old(View()), f.base, f.off) && View() == Deleted(old(View()), f.base, f.off)
    {
      ghost var fs := View();
      hide Inv, Walk, Written, Canon;
      var held := {SUPER_BLOCK};
      var found, base, off, suffix := Lookup(path, ns);
      if found != Ok { return NotFound; }
      if base in held { StuckAtRoot(ns); return Stuck; }
      held := held + {base};
      Block(ROOT);
      SameBlockIff(fs, ns);
      DirIs(fs, base);
      Block(base);
      EntryIs(fs, base, off);
      var entry := dir[base][off];
      assert entry == EntryOf(fs, base, off);
      OwnerIs(fs, entry.block);
      if entry.flags % 2 == 1 {
      } else if entry.flags / 2 % 2 == 1 {
        if entry.block in held { return Stuck; }
        Block(entry.block);
        for i := 2 to ENTRIES
          invariant View() == fs
          invariant forall j {:trigger EntryOf(fs, entry.block, j)} :: 2 <= j < i ==>
              EntryOf(fs, entry.block, j).flags == 0
        {
          assert dir[entry.block][i] == EntryOf(fs, entry.block, i);
          if dir[entry.block][i].flags != 0 { return Unspecified; }
        }
      }
      NoChildren(fs, base, off, base);
      assert entry.block !in held;
      DeletedKeeps(fs, base, off);
      bitmap[entry.block] := false;
      dir[entry.block] := seq(ENTRIES, _ => ZERO);
      dir[base] := dir[base][off := ZERO];
      owner, depth := owner - {entry.block}, depth - {entry.block};
      assert View() == Deleted(fs, base, off);
      return Ok;
    }

    /** Only the root alone is looked up as the superblock. */
    lemma StuckAtRoot(ns: seq<string>)
      requires Valid()
      ensures ns != [] ==> Walk(View(), ROOT, ns).base != SUPER_BLOCK
    {
      hide Inv, Walk;
      if ns != [] {
        WalkIn(ns);
        DirIs(View(), Walk(View(), ROOT, ns).base);
      }
    }

    /** Where GOSFS_Get_Path starts: the directory to climb from, and the name below it, if any. */
    method StartPath(base: int, off: int) returns (cur: int, path: string, ghost acc: seq<string>)
      requires Valid() && base in depth && 0 <= off < ENTRIES && EntryOf(View(), base, off).flags != 0
          && EntryOf(View(), base, off).block != ROOT
      ensures cur in depth && PathOfEntry(View(), base, off) == PathOf(View(), cur) + acc && path == Joined(acc)
          && "" !in acc
    {
      hide Inv;
      Block(base);
      DirIs(View(), base);
      EntryIs(View(), base, off);
      assert dir[base][off] == EntryOf(View(), base, off);
      if dir[base][off].name == ".." {
        cur, path, acc := dir[base][PREV_DIR].block, "", [];
      } else if dir[base][off].name == "." {
        cur, path, acc := dir[base][0].block, "", [];
      } else {
        cur, path, acc := base, dir[base][off].name, [dir[base][off].name];
      }
    }

    /** One turn of its loop: the name of directory cur in its parent goes in front. */
    method Climb(cur: int, path: string, ghost acc: seq<string>)
        returns (prev: int, path': string, ghost acc': seq<string>)
      requires Valid() && cur in depth && cur != ROOT && path == Joined(acc) && "" !in acc
      ensures prev in depth && depth[prev] < depth[cur] && prev == Parent(View(), cur)
      ensures PathOf(View(), prev) + acc' == PathOf(View(), cur) + acc && path' == Joined(acc') && "" !in acc'
    {
      hide Inv;
      Block(cur);
      DirIs(View(), cur);
      OwnerIs(View(), cur);
      assert dir[cur][PREV_DIR] == EntryOf(View(), cur, PREV_DIR);
      prev := dir[cur][PREV_DIR].block;
      Block(prev);
      OwnEntry(View(), cur);
      var i := FindBlock(prev, cur);
      assert dir[prev][i] == EntryOf(View(), prev, i);
      EntryIs(View(), prev, i);
      JoinFront(dir[prev][i].name, acc);
      path' := dir[prev][i].name + if path == "" then "" else "/" + path;
      acc' := [dir[prev][i].name] + acc;
    }

    /** GOSFS_Get_Path: the canonical path of an entry; nothing for the root. */
    method GetPath(base: int, off: int) returns (path: string)
      requires Valid() && base in depth && 0 <= off < ENTRIES && EntryOf(View(), base, off).flags != 0
      ensures path == Render(PathOfEntry(View(), base, off))
    {
      hide Inv, Walk, PathOf, PathOfEntry;
      ghost var goal := PathOfEntry(View(), base, off);
      Block(base);
      CanonicalPathLeadsBack(View(), base, off);
      assert dir[base][off] == EntryOf(View(), base, off);
      if dir[base][off].block == ROOT { return ""; }
      var cur;
      ghost var acc;
      cur, path, acc := StartPath(base, off);
      while true
        invariant cur in depth && goal == PathOf(View(), cur) + acc && path == Joined(acc) && "" !in acc
        decreases depth[cur]
      {
        Block(cur);
        RootIsTop(View(), cur);
        if cur == dir[cur][PREV_DIR].block { break; }
        cur, path, acc := Climb(cur, path, acc);
      }
      assert goal == acc;
      path := "/" + path;
      RenderJoined(goal);
    }
  }

  /** Only the root is its own parent. */
  lemma RootIsTop(fs: Fs, b: int)
    requires Inv(fs) && b in fs.depth
    ensures EntryOf(fs, b, PREV_DIR).block == b <==> b == ROOT
    ensures b == ROOT ==> PathOf(fs, b) == []
  {
    hide Inv;
    DirIs(fs, b);
  }

  /** g is f with one more file or directory, under name n, in the first free entry i of directory b and the first free
      block. */
  ghost predicate Created(f: Fs, g: Fs, b: int, i: int, n: string, isDir: bool) {
    FirstFree(f, b, i) &&
    exists x :: CanCreate(f, b, i, n, x) && FirstFreeBit(f, x) && g == if isDir then NewDir(f, b, i, n, x)
        else NewFile(f, b, i, n, x)
  }

  /** off is the first free entry of directory b, or -1 if there is none. */
  ghost predicate FirstFree(fs: Fs, b: int, off: int) {
    && (off == -1 || (2 <= off < ENTRIES && EntryOf(fs, b, off).flags == 0))
    && forall j {:trigger EntryOf(fs, b, j)} :: 2 <= j < (if off == -1 then ENTRIES else off) ==>
        EntryOf(fs, b, j).flags != 0
  }

  ghost predicate FirstFreeBit(fs: Fs, x: int) {
    0 <= x < |fs.bitmap| && !fs.bitmap[x] && forall i :: 0 <= i < x ==> fs.bitmap[i]
  }

  /** Names with slashes between them. */
  function Joined(ns: seq<string>): string {
    if ns == [] then "" else if |ns| == 1 then ns[0] else ns[0] + "/" + Joined(ns[1..])
  }

  lemma JoinFront(n: string, ns: seq<string>)
    requires "" !in ns
    ensures Joined([n] + ns) == n + if Joined(ns) == "" then "" else "/" + Joined(ns)
    ensures Joined(ns) == "" <==> ns == []
  {
    assert ([n] + ns)[1..] == ns;
    assert ns != [] ==> ns[0] in ns;
  }

  lemma {:induction false} RenderJoined(ns: seq<string>)
    requires ns != []
    ensures "/" + Joined(ns) == Render(ns)
    decreases |ns|
  {
    if |ns| == 1 {
      assert Render(ns[1..]) == "";
    } else {
      RenderJoined(ns[1..]);
    }
  }

  lemma NoMatch(fs: Fs, b: int, n: string, last: bool)
    requires forall j :: 0 <= j < ENTRIES ==> !Matches(EntryOf(fs, b, j), n, last)
    ensures MatchFrom(fs, b, n, last, 0) == ENTRIES
  {
    MatchIs(fs, b, n, last, 0);
  }

  lemma {:induction false} NoIndexFrom(fs: Fs, b: int, x: int, i: nat)
    requires i <= ENTRIES && forall j :: i <= j < ENTRIES ==> EntryOf(fs, b, j).block != x
    ensures IndexFrom(fs, b, x, i) == ENTRIES
    decreases ENTRIES - i
  {
    if i < ENTRIES { NoIndexFrom(fs, b, x, i + 1); }
  }

  lemma NoIndex(fs: Fs, b: int, x: int)
    requires forall j :: 0 <= j < ENTRIES ==> EntryOf(fs, b, j).block != x
    ensures IndexFrom(fs, b, x, 0) == ENTRIES
  {
    NoIndexFrom(fs, b, x, 0);
  }

  lemma WalkStep(fs: Fs, b: int, ns: seq<string>)
    requires ns != []
    ensures var f := Look(fs, b, ns[0], |ns| == 1); Walk(fs, b, ns) == if f.Miss? || |ns| == 1 then f
        else Walk(fs, f.block, ns[1..])
    ensures Look(fs, b, ns[0], |ns| == 1).Miss? <==> MatchFrom(fs, b, ns[0], |ns| == 1, 0) == ENTRIES
    ensures var f := Look(fs, b, ns[0], |ns| == 1); f.Miss? ==> f == Miss(b, ns[0], |ns| == 1)
  {
  }

  lemma WrittenParts(path: string, ns: seq<string>)
    requires Written(path, ns)
    ensures Components(ns)
  {
  }

  lemma RootAlone(path: string, ns: seq<string>)
    requires Written(path, ns)
    ensures path == "/" <==> ns == []
  {
    if ns != [] {
      assert Component(ns[0]);
      assert Render(ns) == "/" + ns[0] + Render(ns[1..]);
    }
  }
}
