// internal/store/store.go: a content-addressed store on a directory tree. The operating system's file
// operations are functions on a value, the disk; hashing is a parameter.
module ContentStore {
  import opened Bytes
  import opened Encryption

  type Key = seq<byte>
  type Name = string
  type Path = seq<Name>

  datatype Entry = File(content: seq<byte>) | Dir

  /** What exists, by path from the working directory (or from "/", for an absolute root). */
  type Disk = map<Path, Entry>

  // ---------------------------------------------------------------- the file system

  ghost predicate WellFormed(d: Disk) {
    forall p :: p in d ==> p != [] && (|p| > 1 ==> p[..|p| - 1] in d && d[p[..|p| - 1]].Dir?)
  }

  /** Some proper, non-empty prefix of p is a file: the system calls fail with "not a directory". */
  predicate ThroughFile(d: Disk, p: Path) {
    exists k :: 0 < k < |p| && p[..k] in d && d[p[..k]].File?
  }

  predicate HasChild(d: Disk, p: Path) {
    exists q :: q in d && |q| == |p| + 1 && q[..|p|] == p
  }

  function Prefixes(p: Path): set<Path> {
    set k | 0 < k <= |p| :: p[..k]
  }

  /** os.MkdirAll. */
  function MkdirAll(d: Disk, p: Path): Option<Disk> {
    if ThroughFile(d, p) || (p in d && d[p].File?) then None
    else Some(d + map q | q in Prefixes(p) - d.Keys :: Dir)
  }

  /** os.Create with everything that is then written: an existing file is truncated. */
  function CreateFile(d: Disk, p: Path, content: seq<byte>): Option<Disk> {
    if |p| < 2 || p[..|p| - 1] !in d || d[p[..|p| - 1]].File? || (p in d && d[p].Dir?) then None
    else Some(d[p := File(content)])
  }

  /** A file or an empty directory: what can be removed. */
  predicate Leaf(d: Disk, p: Path) {
    p in d && (d[p].File? || !HasChild(d, p))
  }

  /** os.Remove. */
  function Remove(d: Disk, p: Path): Option<Disk> {
    if Leaf(d, p) then Some(d - {p}) else None
  }

  // ---------------------------------------------------------------- paths

  datatype PathKey = PathKey(dirs: Path, filename: Name) {
    function FilePath(): Path {
      dirs + [filename]
    }
  }

  const BLOCK_SIZE: nat := 5

  function Blocks(hash: string): Path {
    seq(|hash| / BLOCK_SIZE, i requires 0 <= i < |hash| / BLOCK_SIZE => hash[i * BLOCK_SIZE..(i + 1) * BLOCK_SIZE])
  }

  /** CASPathTransformFunc, from the hex digest of the key on. */
  method CasPathTransform(hash: string) returns (r: PathKey)
    ensures r == PathKey(Blocks(hash), hash)
    ensures |r.dirs| == |hash| / 5 && (forall i :: 0 <= i < |r.dirs| ==> |r.dirs[i]| == 5)
    ensures Flatten(r.dirs) == hash[..|hash| / 5 * 5] && (|hash| == 40 ==> Flatten(r.dirs) == hash)
    ensures r.filename == hash
  {
    BlocksAre(hash, |hash| / BLOCK_SIZE);
    var sliceLen := |hash| / BLOCK_SIZE;
    var paths := new string[sliceLen](_ => "");
    for i := 0 to sliceLen
      invariant forall k :: 0 <= k < i ==> paths[k] == hash[k * BLOCK_SIZE..(k + 1) * BLOCK_SIZE]
    {
      paths[i] := hash[i * BLOCK_SIZE..i * BLOCK_SIZE + BLOCK_SIZE];
    }
    r := PathKey(paths[..], hash);
  }

  /** The blocks cut the digest without gap or overlap. */
  lemma {:induction false} BlocksAre(hash: string, n: nat)
    requires n <= |hash| / BLOCK_SIZE
    ensures Flatten(Blocks(hash)[..n]) == hash[..n * BLOCK_SIZE]
    ensures n == |hash| / BLOCK_SIZE ==> Flatten(Blocks(hash)) == hash[..n * BLOCK_SIZE]
  {
    if n > 0 {
      BlocksAre(hash, n - 1);
      assert Blocks(hash)[..n] == Blocks(hash)[..n - 1] + [Blocks(hash)[n - 1]];
      FlattenSnoc(Blocks(hash)[..n - 1], Blocks(hash)[n - 1]);
    }
    assert Blocks(hash)[..|Blocks(hash)|] == Blocks(hash);
  }

  /** What the store needs of its path scheme, for the keys in use: they have different files, and no file
      lies where another key needs a directory. */
  ghost predicate Separated(transform: Key -> PathKey, keys: set<Key>) {
    && (forall j, k | j in keys && k in keys :: transform(j).FilePath() == transform(k).FilePath() ==> j == k)
    && (forall j, k | j in keys && k in keys :: !(transform(j).FilePath() <= transform(k).dirs))
  }

  /** The content-addressed scheme is such a scheme exactly when no two keys in use have the same hash. */
  lemma CasSeparated(hash: Key -> string, transform: Key -> PathKey, keys: set<Key>)
    requires forall k :: |hash(k)| == 40
    requires forall k :: transform(k) == PathKey(Blocks(hash(k)), hash(k))
    ensures Separated(transform, keys) <==> forall j, k | j in keys && k in keys :: hash(j) == hash(k) ==> j == k
  {
    forall j, k | j in keys && k in keys && transform(j).FilePath() == transform(k).FilePath()
      ensures hash(j) == hash(k)
    {
      assert transform(j).FilePath()[8] == hash(j) && transform(k).FilePath()[8] == hash(k);
    }
  }

  // ---------------------------------------------------------------- the operations, on values

  /** How Root is written: "storage", "./storage" (the default) or "/storage". Delete's pruning loop looks at
      its parts one by one, so that for the last two it comes to "." or to the empty path. */
  datatype RootKind = Relative | Dotted | Absolute

  /** `keys` are the keys the store is ever used with: it is only among them that hashes do not collide. */
  datatype Config = Config(
    root: Path, kind: RootKind, transform: Key -> PathKey, encryption: Option<Aead>, keys: set<Key>
  ) {
    ghost predicate Valid() {
      && root != [] && Separated(transform, keys)
      && (encryption.Some? ==> encryption.value.Sound())
    }

    function Folder(key: Key): Path {
      root + transform(key).dirs
    }

    function PathOf(key: Key): Path {
      root + transform(key).FilePath()
    }

    /** What is written for data that arrives whole or breaks off, and whether that counts as success. */
    function Content(nonces: nat -> Nonce, room: nat, data: seq<byte>, clean: bool): (seq<byte>, bool) {
      match encryption
      case Some(g) => Copied(g, nonces, room, data, clean)
      case None => (Clip(data, room), clean && |data| <= room)
    }

    /** What a stored file reads back as. */
    function Readback(content: seq<byte>): Option<seq<byte>> {
      match encryption
      case Some(g) => var r := Decode(g, content); if r.end == Eof then Some(r.plain) else None
      case None => Some(content)
    }
  }

  function WriteTo(c: Config, d: Disk, key: Key, content: seq<byte>): (Disk, bool) {
    match MkdirAll(d, c.Folder(key))
    case None => (d, false)
    case Some(d1) =>
      match CreateFile(d1, c.PathOf(key), content)
      case None => (d1, false)
      case Some(d2) => (d2, true)
  }

  /** `!os.IsNotExist(err)`: any other failure of Stat counts as "has". */
  predicate HasIn(c: Config, d: Disk, key: Key) {
    c.PathOf(key) in d || ThroughFile(d, c.PathOf(key))
  }

  function ReadFrom(c: Config, d: Disk, key: Key): Option<seq<byte>> {
    if c.PathOf(key) in d && d[c.PathOf(key)].File? then c.Readback(d[c.PathOf(key)].content) else None
  }

  /** Directory q lies above file f and holds nothing but the way to it. */
  ghost predicate Doomed(d: Disk, f: Path, q: Path) {
    q != [] && q < f && forall r :: r in d && q < r ==> r <= f
  }

  /** The disk without file f, and without the directories that only led to it. */
  ghost function Pruned(d: Disk, f: Path): Disk {
    map q | q in d && q != f && !Doomed(d, f, q) :: d[q]
  }

  /** The pruning loop goes all the way, and comes to a directory that is empty but cannot be removed: to the
      empty path, above an absolute root whose first directory held nothing but the way to the key's file; or
      to the working directory, when that held nothing else. */
  ghost predicate Exhausted(c: Config, d: Disk, key: Key)
    requires c.Folder(key) != []
  {
    match c.kind
    case Relative => false
    case Dotted => forall r :: r in d ==> r <= c.PathOf(key)
    case Absolute => Doomed(d, c.PathOf(key), c.PathOf(key)[..1])
  }

  // ---------------------------------------------------------------- the store

  class Store {
    const config: Config
    var disk: Disk

    constructor (config: Config, disk: Disk)
      ensures this.config == config && this.disk == disk
    {
      this.config, this.disk := config, disk;
    }

    method Has(key: Key) returns (r: bool)
      ensures r == HasIn(config, disk, key)
      ensures var p := config.PathOf(key);
        r <==> p in disk || exists n :: 0 < n < |p| && p[..n] in disk && disk[p[..n]].File?
      ensures config.Valid() && Shaped(config, disk) && key in config.keys ==> (r <==> config.PathOf(key) in disk)
    {
      if config.Valid() && Shaped(config, disk) && key in config.keys {
        NotThroughFile(config, disk, key);
      }
      var p := config.PathOf(key);
      r := p in disk || ThroughFile(disk, p);
    }

    /** Write a reader's pieces; the reader ends cleanly or fails, and the disk can take `room` bytes. */
    method Write(key: Key, pieces: seq<seq<byte>>, clean: bool, nonces: nat -> Nonce, room: nat)
      returns (n: nat, used: nat, ok: bool)
      modifies this
      ensures var (content, whole) := config.Content(nonces, room, Flatten(pieces), clean);
        var (after, created) := WriteTo(config, old(disk), key, content);
        disk == after && ok == (created && whole)
      ensures used <= |pieces| && (ok ==> used == |pieces|)
      ensures n == if ok then |Flatten(pieces)| else 0
    {
      n, used := 0, 0;
      var made := MkdirAll(disk, config.Folder(key));
      if made.None? {
        return 0, 0, false;
      }
      disk := made.value;
      if CreateFile(disk, config.PathOf(key), []).None? {
        return 0, 0, false;
      }
      var content: seq<byte> := [];
      match config.encryption {
        case Some(g) =>
          content, n, used, ok := CopyEncrypted(g, nonces, room, pieces, clean);
        case None =>
          content, n, used, ok := CopyPlain(room, pieces, clean);
      }
      disk := disk[config.PathOf(key) := File(content)];
      if !ok {
        n := 0;
      }
    }

    /** io.Copy straight into the file. */
    static method CopyPlain(room: nat, pieces: seq<seq<byte>>, clean: bool)
      returns (content: seq<byte>, n: nat, used: nat, ok: bool)
      ensures content == Clip(Flatten(pieces), room) && ok == (clean && |Flatten(pieces)| <= room)
      ensures used <= |pieces| && (ok ==> used == |pieces| && n == |Flatten(pieces)|)
    {
      content, n := [], 0;
      for i := 0 to |pieces|
        invariant content + Flatten(pieces[i..]) == Flatten(pieces) && n == |content| <= room
      {
        assert pieces[i..][1..] == pieces[i + 1..];
        assert content + (pieces[i] + Flatten(pieces[i + 1..])) == (content + pieces[i]) + Flatten(pieces[i + 1..]);
        if |content| + |pieces[i]| > room {
          content := content + pieces[i][..room - |content|];
          assert content == Flatten(pieces)[..room];
          return content, n, i + 1, false;
        }
        content := content + pieces[i];
        n := n + |pieces[i]|;
      }
      used, ok := |pieces|, clean;
    }

    method Read(key: Key, sizes: nat -> nat) returns (data: Option<seq<byte>>)
      requires forall i :: sizes(i) > 0
      ensures data == ReadFrom(config, disk, key)
      ensures config.PathOf(key) !in disk || disk[config.PathOf(key)].Dir? ==> data == None
      ensures config.PathOf(key) in disk && disk[config.PathOf(key)].File? ==>
        var content := disk[config.PathOf(key)].content;
        if config.encryption == None then data == Some(content)
        else forall x :: data == Some(x) <==> Decode(config.encryption.value, content) == Reading(x, Eof)
    {
      var has := Has(key);
      if !has {
        return None;
      }
      var p := config.PathOf(key);
      if p !in disk || disk[p].Dir? {
        return None;
      }
      match config.encryption {
        case Some(g) =>
          var reader := new DecryptingReader(g, disk[p].content);
          var plain, end := reader.ReadAll(sizes);
          data := if end == Eof then Some(plain) else None;
        case None =>
          data := Some(disk[p].content);
      }
    }

    /** Removes the key's file, then every directory above it, up to and beyond Root, that has become empty. */
    method Delete(key: Key) returns (ok: bool)
      requires WellFormed(disk)
      requires config.Folder(key) != []
      modifies this
      ensures !Leaf(old(disk), config.PathOf(key)) ==> !ok && disk == old(disk)
      ensures Leaf(old(disk), config.PathOf(key)) ==> disk == Pruned(old(disk), config.PathOf(key))
      ensures Leaf(old(disk), config.PathOf(key)) ==> ok == !Exhausted(config, old(disk), key)
    {
      hide *;
      var f := config.PathOf(key);
      var removed := Remove(disk, f);
      RemoveIs(disk, f);
      if removed.None? {
        return false;
      }
      disk := removed.value;
      var subFolders := config.Folder(key);
      FolderOf(config, key);
      PruneStart(old(disk), f);
      var i := |subFolders|;
      while i > 0
        invariant 0 <= i <= |subFolders| && Pruning(old(disk), f, i, disk)
      {
        var subPath := subFolders[..i];
        assert subPath == f[..i];
        PruneStep(old(disk), f, i, disk);
        if HasChild(disk, subPath) {
          NotExhausted(config, old(disk), key);
          return true;
        }
        disk := disk - {subPath};
        i := i - 1;
      }
      PruneEnd(old(disk), f, disk);
      LastPart(config, old(disk), key);
      match config.kind {
        case Relative => ok := true;
        case Dotted => ok := disk != map[];
        case Absolute => ok := false;
      }
    }
  }

  lemma RemoveIs(d: Disk, p: Path)
    ensures Remove(d, p) == if Leaf(d, p) then Some(d - {p}) else None
    ensures Leaf(d, p) ==> p in d
  {
  }

  /** What the loop finds when it has removed all folders. */
  lemma LastPart(c: Config, d: Disk, key: Key)
    requires WellFormed(d) && c.Folder(key) != [] && Doomed(d, c.PathOf(key), c.PathOf(key)[..1])
    ensures Exhausted(c, d, key) <==> c.kind == Absolute || (c.kind == Dotted && Pruned(d, c.PathOf(key)) == map[])
  {
    var f := c.PathOf(key);
    if forall r :: r in d ==> r <= f {
      forall q | q in d && q != f
        ensures q == [] || Doomed(d, f, q)
      {
      }
    }
    if Pruned(d, f) == map[] {
      forall r | r in d
        ensures r <= f
      {
        assert r !in Pruned(d, f);
      }
    }
  }

  lemma NotExhausted(c: Config, d: Disk, key: Key)
    requires c.Folder(key) != [] && !Doomed(d, c.PathOf(key), c.PathOf(key)[..1])
    ensures !Exhausted(c, d, key)
  {
    FolderOf(c, key);
  }

  lemma FolderOf(c: Config, key: Key)
    requires c.Folder(key) != []
    ensures var f := c.PathOf(key);
      |f| >= 2 && c.Folder(key) == f[..|f| - 1] && |c.Folder(key)| == |f| - 1
  {
    assert c.PathOf(key) == c.Folder(key) + [c.transform(key).filename];
  }

  /** The disk when file f and the folders on its path deeper than i have been removed. */
  ghost function Partly(d: Disk, f: Path, i: nat): Disk {
    map q | q in d && q != f && !(q < f && |q| > i) :: d[q]
  }

  /** Where Delete stands before it looks at the folder of depth i: all deeper folders only led to f. */
  ghost predicate Pruning(d: Disk, f: Path, i: nat, e: Disk) {
    e == Partly(d, f, i) && forall j :: i < j < |f| ==> Doomed(d, f, f[..j])
  }

  lemma {:induction false} AncestorIn(d: Disk, r: Path, k: nat)
    requires WellFormed(d) && r in d && 0 < k <= |r|
    ensures r[..k] in d && (k < |r| ==> d[r[..k]].Dir?)
    decreases |r|
  {
    if k < |r| {
      AncestorIn(d, r[..|r| - 1], k);
      assert r[..|r| - 1][..k] == r[..k];
    } else {
      assert r[..k] == r;
    }
  }

  /** A path has a child on the way to anything below it. */
  lemma ChildTowards(d: Disk, f: Path, r: Path)
    requires WellFormed(d) && r in d && f < r && f != []
    ensures f in d && d[f].Dir? && HasChild(d, f)
  {
    assert r[..|f|] == f && r[..|f| + 1][..|f|] == f;
    AncestorIn(d, r, |f|);
    AncestorIn(d, r, |f| + 1);
  }

  /** Only f itself lies at or below a file or an empty directory f. */
  lemma NothingBelow(d: Disk, f: Path, r: Path)
    requires WellFormed(d) && Leaf(d, f) && r in d && f <= r
    ensures r == f
  {
    if f < r {
      ChildTowards(d, f, r);
    }
  }

  lemma NoChildDoomed(d: Disk, f: Path, i: nat)
    requires WellFormed(d) && Leaf(d, f) && 0 < i < |f|
    requires forall j :: i < j < |f| ==> Doomed(d, f, f[..j])
    requires !HasChild(Partly(d, f, i), f[..i])
    ensures Doomed(d, f, f[..i])
  {
    var sub := f[..i];
    forall r | r in d && sub < r
      ensures r <= f
    {
      var c := r[..i + 1];
      AncestorIn(d, r, i + 1);
      assert c[..i] == sub;
      assert c !in Partly(d, f, i);
      if c == f {
        NothingBelow(d, f, r);
      } else {
        assert c == f[..i + 1];
        assert Doomed(d, f, c);
      }
    }
  }

  lemma NotDoomed(d: Disk, f: Path, q: Path, c: Path)
    requires c in d && q < c && !(c <= f)
    ensures !Doomed(d, f, q)
  {
  }

  lemma ChildSaves(d: Disk, f: Path, i: nat)
    requires WellFormed(d) && f in d && 0 < i < |f|
    requires forall j :: i < j < |f| ==> Doomed(d, f, f[..j])
    requires HasChild(Partly(d, f, i), f[..i])
    ensures Partly(d, f, i) == Pruned(d, f)
  {
    var c :| c in Partly(d, f, i) && |c| == i + 1 && c[..i] == f[..i];
    assert c in d && !(c <= f);
    hide Doomed, WellFormed, HasChild;
    forall q | q in d && q < f
      ensures Doomed(d, f, q) <==> |q| > i
    {
      assert q == f[..|q|];
      if |q| <= i {
        PrefixOfPrefix(q, f, c, i);
        NotDoomed(d, f, q, c);
      }
    }
    forall q
      ensures Doomed(d, f, q) ==> q < f
    {
      DoomedAbove(d, f, q);
    }
  }

  lemma DoomedAbove(d: Disk, f: Path, q: Path)
    ensures Doomed(d, f, q) ==> q < f
  {
  }

  lemma PrefixOfPrefix(q: Path, f: Path, c: Path, i: nat)
    requires q <= f && |q| <= i <= |f| && i < |c| && c[..i] == f[..i]
    ensures q < c
  {
    assert q == f[..i][..|q|];
  }

  lemma PartlyStep(d: Disk, f: Path, i: nat)
    requires 0 < i < |f|
    ensures Partly(d, f, i) - {f[..i]} == Partly(d, f, i - 1)
  {
    forall q | q < f && |q| > i - 1 && !(|q| > i)
      ensures q == f[..i]
    {
    }
    assert f[..i] < f;
  }

  lemma StillThere(d: Disk, f: Path, i: nat, e: Disk)
    requires WellFormed(d) && f in d && 0 < i < |f| && e == Partly(d, f, i) == Pruned(d, f)
    ensures !Doomed(d, f, f[..1])
  {
    AncestorIn(d, f, 1);
    assert f[..1] in e;
  }

  lemma PruneStep(d: Disk, f: Path, i: nat, e: Disk)
    requires WellFormed(d) && Leaf(d, f) && 0 < i < |f| && Pruning(d, f, i, e)
    ensures if HasChild(e, f[..i]) then e == Pruned(d, f) && !Doomed(d, f, f[..1])
            else Pruning(d, f, i - 1, e - {f[..i]})
  {
    if HasChild(e, f[..i]) {
      ChildSaves(d, f, i);
      StillThere(d, f, i, e);
    } else {
      NoChildDoomed(d, f, i);
      PartlyStep(d, f, i);
      hide Doomed, WellFormed, HasChild, Partly, Leaf;
    }
  }

  lemma PruneStart(d: Disk, f: Path)
    requires f != []
    ensures Pruning(d, f, |f| - 1, d - {f})
  {
  }

  lemma PruneEnd(d: Disk, f: Path, e: Disk)
    requires WellFormed(d) && f in d && |f| > 1 && Pruning(d, f, 0, e)
    ensures e == Pruned(d, f) && Doomed(d, f, f[..1])
  {
    forall q | q in d && q < f
      ensures Doomed(d, f, q)
    {
      assert q == f[..|q|] && 0 < |q| < |f|;
    }
    assert forall q :: q in d ==> q != [];
    assert forall q :: q in d ==> (Doomed(d, f, q) <==> q < f && |q| > 0);
    assert Doomed(d, f, f[..1]);
  }

  // ---------------------------------------------------------------- what every operation keeps

  /** Every key's file, if present, is a file, and every folder on the way to it, if present, a directory. */
  ghost predicate Shaped(c: Config, d: Disk) {
    && WellFormed(d)
    && (forall k :: k in c.keys && c.PathOf(k) in d ==> d[c.PathOf(k)].File?)
    && (forall k, q :: k in c.keys && q in d && q <= c.Folder(k) ==> d[q].Dir?)
  }

  predicate EmptyDir(d: Disk, q: Path) {
    q in d && d[q].Dir? && !HasChild(d, q)
  }

  /** The files of different keys are different, and never on the way to one another. */
  lemma PathsApart(c: Config, j: Key, k: Key)
    requires c.Valid() && j in c.keys && k in c.keys
    ensures c.PathOf(j) == c.PathOf(k) ==> j == k
    ensures !(c.PathOf(j) <= c.Folder(k))
    ensures |c.PathOf(k)| >= 2 && c.PathOf(k)[..|c.PathOf(k)| - 1] == c.Folder(k)
  {
    PrefixCancel(c.root, c.transform(j).FilePath(), c.transform(k).FilePath());
    PrefixCancel(c.root, c.transform(k).FilePath(), c.transform(j).FilePath());
    PrefixCancel(c.root, c.transform(j).FilePath(), c.transform(k).dirs);
  }

  lemma PrefixCancel(r: Path, a: Path, b: Path)
    ensures r + a <= r + b ==> a <= b
  {
    assert (r + a)[|r|..] == a && (r + b)[|r|..] == b;
    if r + a <= r + b {
      assert a == (r + b)[..|r + a|][|r|..];
    }
  }

  lemma ProperPrefix(p: Path, f: Path)
    requires f != []
    ensures p < f ==> p <= f[..|f| - 1]
  {
  }

  lemma NotThroughFile(c: Config, d: Disk, k: Key)
    requires c.Valid() && Shaped(c, d) && k in c.keys
    ensures !ThroughFile(d, c.Folder(k)) && !ThroughFile(d, c.PathOf(k))
    ensures c.Folder(k) in d ==> d[c.Folder(k)].Dir?
  {
    PathsApart(c, k, k);
    forall n | 0 < n < |c.PathOf(k)|
      ensures c.PathOf(k)[..n] <= c.Folder(k)
    {
      assert c.PathOf(k)[..n] == c.Folder(k)[..n];
    }
    forall n | 0 < n < |c.Folder(k)|
      ensures c.Folder(k)[..n] <= c.Folder(k)
    {
    }
  }

  /** What a successful Write leaves on the disk. */
  ghost function Written(c: Config, d: Disk, key: Key, content: seq<byte>): Disk {
    (d + map q | q in Prefixes(c.Folder(key)) - d.Keys :: Dir)[c.PathOf(key) := File(content)]
  }

  lemma WriteSucceeds(c: Config, d: Disk, key: Key, content: seq<byte>)
    requires c.Valid() && Shaped(c, d) && key in c.keys
    ensures WriteTo(c, d, key, content) == (Written(c, d, key, content), true)
  {
    PathsApart(c, key, key);
    NotThroughFile(c, d, key);
    assert c.Folder(key)[..|c.Folder(key)|] == c.Folder(key);
    assert c.Folder(key) in Prefixes(c.Folder(key));
    assert c.PathOf(key) !in Prefixes(c.Folder(key));
  }

  /** What is stored under key k is the same on both disks. */
  predicate SameFile(c: Config, d: Disk, e: Disk, k: Key) {
    var p := c.PathOf(k);
    (p in e <==> p in d) && (p in d ==> e[p] == d[p])
  }

  /** What other keys hold is unchanged. */
  ghost predicate OthersKept(c: Config, d: Disk, e: Disk, key: Key) {
    forall k :: k in c.keys && k != key ==> SameFile(c, d, e, k)
  }

  /** Writing changes what is stored under this key, and under no other. */
  lemma WriteKeeps(c: Config, d: Disk, key: Key, content: seq<byte>)
    requires c.Valid() && Shaped(c, d) && key in c.keys
    ensures var e := Written(c, d, key, content);
      && Shaped(c, e)
      && e[c.PathOf(key)] == File(content)
      && OthersKept(c, d, e, key)
  {
    var e := Written(c, d, key, content);
    forall p | p in e
      ensures p != [] && (|p| > 1 ==> p[..|p| - 1] in e && e[p[..|p| - 1]].Dir?)
    {
      WrittenParent(c, d, key, content, p);
    }
    forall k | k in c.keys
      ensures k != key ==> SameFile(c, d, e, k)
      ensures c.PathOf(k) in e ==> e[c.PathOf(k)].File?
    {
      WrittenFile(c, d, key, content, k);
    }
    forall k, q | k in c.keys && q in e && q <= c.Folder(k)
      ensures e[q].Dir?
    {
      WrittenDir(c, d, key, content, k, q);
    }
  }

  /** When a write fails, and what it then has done: it needs every folder on the way to be a directory, if it
      is there at all, and no directory where the file goes; otherwise it has made folders at most. */
  lemma WriteToExactly(c: Config, d: Disk, key: Key, content: seq<byte>)
    requires c.Folder(key) != []
    ensures var (e, ok) := WriteTo(c, d, key, content);
      && (ok <==> (forall n :: 0 < n <= |c.Folder(key)| && c.Folder(key)[..n] in d ==> d[c.Folder(key)[..n]].Dir?)
                  && (c.PathOf(key) in d ==> d[c.PathOf(key)].File?))
      && (forall p :: p in d && p != c.PathOf(key) ==> p in e && e[p] == d[p])
      && (forall p :: p in e && p !in d && p != c.PathOf(key) ==> p <= c.Folder(key) && e[p] == Dir)
      && (if ok then c.PathOf(key) in e && e[c.PathOf(key)] == File(content)
          else c.PathOf(key) in d <==> c.PathOf(key) in e)
  {
    var folder := c.Folder(key);
    hide Config.PathOf, Config.Folder;
    FolderOf(c, key);
    FoldersMade(d, folder);
    hide MkdirAll, Prefixes;
    assert c.PathOf(key)[..|c.PathOf(key)| - 1] == folder;
  }

  lemma FoldersMade(d: Disk, p: Path)
    requires p != []
    ensures var made := MkdirAll(d, p);
      && made.Some? == (forall n :: 0 < n <= |p| && p[..n] in d ==> d[p[..n]].Dir?)
      && (made.Some? ==>
            && p in made.value && made.value[p].Dir?
            && (forall q :: q in d ==> q in made.value && made.value[q] == d[q])
            && (forall q :: q in made.value && q !in d ==> q <= p && made.value[q] == Dir))
  {
    assert p[..|p|] == p;
    assert p in Prefixes(p);
    assert forall n :: 0 < n <= |p| ==> p[..n] in Prefixes(p);
  }

  lemma WrittenFile(c: Config, d: Disk, key: Key, content: seq<byte>, k: Key)
    requires c.Valid() && Shaped(c, d) && key in c.keys && k in c.keys
    ensures var e, p := Written(c, d, key, content), c.PathOf(k);
      && (k != key ==> SameFile(c, d, e, k))
      && (p in e ==> e[p].File?)
  {
    PathsApart(c, k, key);
    assert c.PathOf(k) !in Prefixes(c.Folder(key));
  }

  lemma WrittenDir(c: Config, d: Disk, key: Key, content: seq<byte>, k: Key, q: Path)
    requires c.Valid() && Shaped(c, d) && key in c.keys && k in c.keys
    requires q in Written(c, d, key, content) && q <= c.Folder(k)
    ensures Written(c, d, key, content)[q].Dir?
  {
    PathsApart(c, key, k);
  }

  lemma WrittenParent(c: Config, d: Disk, key: Key, content: seq<byte>, p: Path)
    requires c.Valid() && Shaped(c, d) && key in c.keys && p in Written(c, d, key, content)
    ensures p != []
    ensures |p| > 1 ==>
      var e, q := Written(c, d, key, content), p[..|p| - 1];
      q in e && e[q].Dir?
  {
    var f, folder := c.PathOf(key), c.Folder(key);
    PathsApart(c, key, key);
    if |p| > 1 {
      var q := p[..|p| - 1];
      if p == f || p in Prefixes(folder) {
        assert q == folder[..|q|];
        assert q in Prefixes(folder);
        assert q != f;
      } else {
        assert p in d && q in d && d[q].Dir?;
      }
    }
  }

  /** Deleting removes what is stored under this key, and nothing stored under any other key. */
  lemma DeleteKeeps(c: Config, d: Disk, key: Key)
    requires c.Valid() && Shaped(c, d) && key in c.keys && c.PathOf(key) in d
    ensures var e := Pruned(d, c.PathOf(key));
      && Shaped(c, e)
      && c.PathOf(key) !in e
      && OthersKept(c, d, e, key)
  {
    var f := c.PathOf(key);
    var e := Pruned(d, f);
    forall p | p in e
      ensures p != [] && (|p| > 1 ==> p[..|p| - 1] in e && e[p[..|p| - 1]].Dir?)
    {
      if |p| > 1 {
        ParentSurvives(d, f, p);
      }
    }
    forall k | k in c.keys && k != key
      ensures c.PathOf(k) in e <==> c.PathOf(k) in d
    {
      PathsApart(c, k, key);
      PathsApart(c, key, key);
      ProperPrefix(c.PathOf(k), f);
    }
  }

  /** A directory that still has something below it is not pruned. */
  lemma ParentSurvives(d: Disk, f: Path, p: Path)
    requires WellFormed(d) && Leaf(d, f) && p in Pruned(d, f) && |p| > 1
    ensures p[..|p| - 1] in Pruned(d, f)
  {
    var q := p[..|p| - 1];
    assert q < p;
    if q == f {
      NothingBelow(d, f, p);
    } else {
      DoomedBelow(d, f, q, p);
    }
  }

  lemma DoomedBelow(d: Disk, f: Path, q: Path, p: Path)
    requires p in d && q < p
    ensures Doomed(d, f, q) ==> p == f || Doomed(d, f, p)
  {
    assert forall r :: r in d && p < r ==> q < r;
  }

  /** A folder on the way to the key's file leads to the next folder, or to the file. */
  lemma WrittenWay(c: Config, d: Disk, key: Key, content: seq<byte>, q: Path)
    requires c.PathOf(key) == c.Folder(key) + [c.transform(key).filename] && q in Prefixes(c.Folder(key))
    ensures HasChild(Written(c, d, key, content), q)
  {
    var f, folder := c.PathOf(key), c.Folder(key);
    var next := f[..|q| + 1];
    assert next[..|q|] == q;
    if |q| < |folder| {
      assert next == folder[..|q| + 1];
      assert next in Prefixes(folder);
    } else {
      assert next == f;
    }
    assert next in Written(c, d, key, content);
  }

  /** Neither writing nor deleting leaves an empty directory behind: one that is empty afterwards was there,
      and empty, before. */
  lemma WriteLeavesNoEmptyDir(c: Config, d: Disk, key: Key, content: seq<byte>, q: Path)
    requires EmptyDir(Written(c, d, key, content), q)
    ensures EmptyDir(d, q)
  {
    if q in Prefixes(c.Folder(key)) {
      assert c.PathOf(key) == c.Folder(key) + [c.transform(key).filename];
      WrittenWay(c, d, key, content, q);
    }
    ChildWritten(c, d, key, content, q);
  }

  lemma ChildWritten(c: Config, d: Disk, key: Key, content: seq<byte>, q: Path)
    ensures HasChild(d, q) ==> HasChild(Written(c, d, key, content), q)
  {
    if r :| r in d && |r| == |q| + 1 && r[..|q|] == q {
      assert r in Written(c, d, key, content);
    }
  }

  lemma DeleteLeavesNoEmptyDir(d: Disk, f: Path, q: Path)
    requires WellFormed(d) && Leaf(d, f) && EmptyDir(Pruned(d, f), q)
    ensures EmptyDir(d, q)
  {
    if q < f {
      StillUsed(d, f, q);
    } else if HasChild(d, q) {
      ChildKept(d, f, q);
    }
  }

  /** Pruning takes nothing away from directories that are not on the way to f. */
  lemma ChildKept(d: Disk, f: Path, q: Path)
    requires HasChild(d, q) && !(q < f)
    ensures HasChild(Pruned(d, f), q)
  {
    var r :| r in d && |r| == |q| + 1 && r[..|q|] == q;
    assert q < r;
    NotOnPath(q, r, f);
    assert r in Pruned(d, f);
  }

  lemma NotOnPath(q: Path, r: Path, f: Path)
    requires q < r && !(q < f)
    ensures !(r <= f)
  {
  }

  /** A directory above f that is not pruned holds something that is not on the way to f. */
  lemma StillUsed(d: Disk, f: Path, q: Path)
    requires WellFormed(d) && Leaf(d, f) && q in d && q < f && !Doomed(d, f, q)
    ensures HasChild(Pruned(d, f), q)
  {
    var r :| r in d && q < r && !(r <= f);
    var child := r[..|q| + 1];
    AncestorIn(d, r, |q| + 1);
    ChildSurvives(d, f, child, r);
    assert child[..|q|] == q;
  }

  lemma ChildSurvives(d: Disk, f: Path, child: Path, r: Path)
    requires WellFormed(d) && Leaf(d, f) && child in d && r in d && child <= r && !(r <= f)
    ensures child in Pruned(d, f)
  {
    assert child == r || child < r;
    if child == f {
      NothingBelow(d, f, r);
    }
  }

  /** Root itself survives a Delete exactly when something else is stored below it: with the last file gone,
      Delete removes Root too, and the empty directories above it. */
  lemma RootSurvives(c: Config, d: Disk, key: Key)
    requires c.Valid() && Shaped(c, d) && key in c.keys && c.PathOf(key) in d
    ensures c.root in Pruned(d, c.PathOf(key)) <==> exists r :: r in d && c.root < r && !(r <= c.PathOf(key))
  {
    PathsApart(c, key, key);
    var f := c.PathOf(key);
    assert c.root == f[..|c.root|];
    AncestorIn(d, f, |c.root|);
  }

  // ---------------------------------------------------------------- encrypted files that are not whole

  /** A stored file of which only `cut` bytes are there fails to read, unless the cut is at a frame boundary or
      right after a length field: then it reads as the whole frames before the cut. */
  lemma CutFileRead(c: Config, d: Disk, key: Key, nonces: nat -> Nonce, plain: seq<byte>, cut: nat)
    requires c.encryption.Some? && c.encryption.value.Sound()
    requires var file := Encode(c.encryption.value, nonces, 0, plain);
      cut <= |file| && c.PathOf(key) in d && d[c.PathOf(key)] == File(file[..cut])
    ensures var file := Encode(c.encryption.value, nonces, 0, plain);
      && cut / 65568 * 65536 <= |plain|
      && ReadFrom(c, d, key) == (if cut == |file| then Some(plain)
                                 else if cut % 65568 == 0 || cut % 65568 == 4 then Some(plain[..cut / 65568 * 65536])
                                 else None)
  {
    hide Encode, Decode, Aead.Sound, Config.PathOf;
    var g := c.encryption.value;
    Truncation(g, nonces, 0, plain, cut);
    EncodedLength(g, nonces, 0, plain);
    CutCount(|plain|, cut);
    assert plain[..|plain|] == plain;
  }

  /** There are no more whole chunks before the cut than in the plaintext. */
  lemma CutCount(n: nat, cut: nat)
    requires cut <= n + 32 * ((n + 65535) / 65536)
    ensures cut / 65568 * 65536 <= n
  {
  }

  /** That is what a disk leaves of a file when it fills up. */
  lemma FullDiskRead(c: Config, d: Disk, key: Key, nonces: nat -> Nonce, plain: seq<byte>, room: nat)
    requires c.Valid() && Shaped(c, d) && key in c.keys && c.encryption.Some?
    requires room < |Encode(c.encryption.value, nonces, 0, plain)|
    ensures var (content, ok) := c.Content(nonces, room, plain, true);
      && !ok && room / 65568 * 65536 <= |plain|
      && ReadFrom(c, WriteTo(c, d, key, content).0, key)
         == if room % 65568 == 0 || room % 65568 == 4 then Some(plain[..room / 65568 * 65536]) else None
  {
    var content := c.Content(nonces, room, plain, true).0;
    WriteSucceeds(c, d, key, content);
    CutFileRead(c, WriteTo(c, d, key, content).0, key, nonces, plain, room);
  }

  // ---------------------------------------------------------------- the store is a map

  datatype Op =
    | Write(key: Key, data: seq<byte>, nonces: nat -> Nonce)
    | Read(key: Key)
    | Has(key: Key)
    | Delete(key: Key)

  datatype Outcome = Done | Error | Answer(yes: bool) | Data(bytes: seq<byte>)

  /** One operation on the disk; writes have all the room they need. */
  ghost function OnDisk(c: Config, d: Disk, op: Op): (Disk, Outcome)
    requires c.root != []
  {
    match op
    case Write(key, data, nonces) =>
      var content := match c.encryption case Some(g) => Encode(g, nonces, 0, data) case None => data;
      var (e, ok) := WriteTo(c, d, key, content);
      (e, if ok then Done else Error)
    case Read(key) =>
      var r := ReadFrom(c, d, key);
      (d, if r.Some? then Data(r.value) else Error)
    case Has(key) => (d, Answer(HasIn(c, d, key)))
    case Delete(key) =>
      if !Leaf(d, c.PathOf(key)) then (d, Error)
      else
        var e := Pruned(d, c.PathOf(key));
        (e, if Exhausted(c, d, key) then Error else Done)
  }

  /** The same operation on a plain map from keys to data. */
  function OnMap(m: map<Key, seq<byte>>, op: Op): (map<Key, seq<byte>>, Outcome) {
    match op
    case Write(key, data, _) => (m[key := data], Done)
    case Read(key) => (m, if key in m then Data(m[key]) else Error)
    case Has(key) => (m, Answer(key in m))
    case Delete(key) => (m - {key}, if key in m then Done else Error)
  }

  ghost function RunOnDisk(c: Config, d: Disk, ops: seq<Op>): seq<Outcome>
    requires c.root != []
    decreases |ops|
  {
    if ops == [] then []
    else [OnDisk(c, d, ops[0]).1] + RunOnDisk(c, OnDisk(c, d, ops[0]).0, ops[1..])
  }

  function RunOnMap(m: map<Key, seq<byte>>, ops: seq<Op>): seq<Outcome>
    decreases |ops|
  {
    if ops == [] then []
    else [OnMap(m, ops[0]).1] + RunOnMap(OnMap(m, ops[0]).0, ops[1..])
  }

  ghost predicate Represents(c: Config, d: Disk, m: map<Key, seq<byte>>) {
    && Shaped(c, d)
    && m.Keys <= c.keys
    && (forall k :: k in c.keys ==> (k in m <==> c.PathOf(k) in d))
    && (forall k :: k in m ==> c.Readback(d[c.PathOf(k)].content) == Some(m[k]))
  }

  lemma ReadbackOfWritten(c: Config, nonces: nat -> Nonce, data: seq<byte>)
    requires c.Valid()
    ensures var content := match c.encryption case Some(g) => Encode(g, nonces, 0, data) case None => data;
      c.Readback(content) == Some(data)
  {
    if c.encryption.Some? {
      RoundTrip(c.encryption.value, nonces, 0, data);
    }
  }

  lemma WriteRefines(c: Config, d: Disk, m: map<Key, seq<byte>>, key: Key, data: seq<byte>, content: seq<byte>)
    requires c.Valid() && Represents(c, d, m) && key in c.keys && c.Readback(content) == Some(data)
    ensures Represents(c, Written(c, d, key, content), m[key := data])
  {
    hide Decode, Shaped;
    WriteKeeps(c, d, key, content);
  }

  lemma DeleteRefines(c: Config, d: Disk, m: map<Key, seq<byte>>, key: Key)
    requires c.Valid() && Represents(c, d, m) && key in m
    ensures Represents(c, Pruned(d, c.PathOf(key)), m - {key})
  {
    hide Decode, Doomed, Pruned, Shaped, Config.Valid, Config.Readback, Config.PathOf;
    DeleteKeeps(c, d, key);
  }

  /** A Delete that removes the file and reports an error. */
  ghost predicate Misreports(c: Config, d: Disk, op: Op)
    requires c.root != []
  {
    op.Delete? && c.PathOf(op.key) in d && Exhausted(c, d, op.key)
  }

  /** One operation keeps the disk representing the map, and answers as the map does exactly when it is not a
      Delete that exhausts the root. */
  lemma StepRefines(c: Config, d: Disk, m: map<Key, seq<byte>>, op: Op)
    requires c.Valid() && Represents(c, d, m) && op.key in c.keys
    ensures Represents(c, OnDisk(c, d, op).0, OnMap(m, op).0)
    ensures OnDisk(c, d, op).1 == OnMap(m, op).1 <==> !Misreports(c, d, op)
  {
    match op
    case Write(key, data, nonces) =>
      var content := match c.encryption case Some(g) => Encode(g, nonces, 0, data) case None => data;
      ReadbackOfWritten(c, nonces, data);
      WriteSucceeds(c, d, key, content);
      WriteRefines(c, d, m, key, data, content);
    case Read(key) =>
    case Has(key) => NotThroughFile(c, d, key);
    case Delete(key) =>
      if key in m {
        DeleteRefines(c, d, m, key);
      } else {
        assert m - {key} == m;
      }
  }

  ghost function DiskAfter(c: Config, d: Disk, ops: seq<Op>): Disk
    requires c.root != []
    decreases |ops|
  {
    if ops == [] then d else DiskAfter(c, OnDisk(c, d, ops[0]).0, ops[1..])
  }

  function MapAfter(m: map<Key, seq<byte>>, ops: seq<Op>): map<Key, seq<byte>>
    decreases |ops|
  {
    if ops == [] then m else MapAfter(OnMap(m, ops[0]).0, ops[1..])
  }

  ghost predicate InUse(c: Config, ops: seq<Op>) {
    forall i :: 0 <= i < |ops| ==> ops[i].key in c.keys
  }

  lemma {:induction false} OutcomeCounts(c: Config, d: Disk, m: map<Key, seq<byte>>, ops: seq<Op>)
    requires c.root != []
    ensures |RunOnDisk(c, d, ops)| == |RunOnMap(m, ops)| == |ops|
    decreases |ops|
  {
    if ops != [] {
      OutcomeCounts(c, OnDisk(c, d, ops[0]).0, OnMap(m, ops[0]).0, ops[1..]);
    }
  }

  /** Any run of operations leaves the disk representing what the map has become. */
  lemma {:induction false} RunRepresents(c: Config, d: Disk, m: map<Key, seq<byte>>, ops: seq<Op>)
    requires c.Valid() && Represents(c, d, m) && InUse(c, ops)
    ensures Represents(c, DiskAfter(c, d, ops), MapAfter(m, ops))
    decreases |ops|
  {
    if ops != [] {
      StepRefines(c, d, m, ops[0]);
      hide Represents, OnDisk, OnMap, Misreports;
      RunRepresents(c, OnDisk(c, d, ops[0]).0, OnMap(m, ops[0]).0, ops[1..]);
    }
  }

  /** Each operation of any run answers as a plain map would, exactly when it is not a Delete that exhausts the
      root at that point of the run. */
  lemma {:induction false} RefinesMap(c: Config, d: Disk, m: map<Key, seq<byte>>, ops: seq<Op>, i: nat)
    requires c.Valid() && Represents(c, d, m) && InUse(c, ops) && i < |ops|
    ensures |RunOnDisk(c, d, ops)| == |RunOnMap(m, ops)| == |ops|
    ensures RunOnDisk(c, d, ops)[i] == RunOnMap(m, ops)[i] <==> !Misreports(c, DiskAfter(c, d, ops[..i]), ops[i])
    decreases |ops|
  {
    OutcomeCounts(c, d, m, ops);
    StepRefines(c, d, m, ops[0]);
    hide Represents, OnDisk, OnMap, Misreports;
    RunLater(c, d, m, ops, i);
    if i > 0 {
      hide Config.Valid, RunOnDisk, RunOnMap, DiskAfter;
      RefinesMap(c, OnDisk(c, d, ops[0]).0, OnMap(m, ops[0]).0, ops[1..], i - 1);
    }
  }

  /** What operation i finds and answers, seen from after the first operation. */
  lemma RunLater(c: Config, d: Disk, m: map<Key, seq<byte>>, ops: seq<Op>, i: nat)
    requires c.root != [] && i < |ops| == |RunOnDisk(c, d, ops)| == |RunOnMap(m, ops)|
    ensures i == 0 ==>
      && DiskAfter(c, d, ops[..i]) == d
      && RunOnDisk(c, d, ops)[i] == OnDisk(c, d, ops[0]).1 && RunOnMap(m, ops)[i] == OnMap(m, ops[0]).1
    ensures i > 0 ==>
      var d1, m1 := OnDisk(c, d, ops[0]).0, OnMap(m, ops[0]).0;
      && |RunOnDisk(c, d1, ops[1..])| == |RunOnMap(m1, ops[1..])| == |ops| - 1
      && DiskAfter(c, d, ops[..i]) == DiskAfter(c, d1, ops[1..][..i - 1])
      && RunOnDisk(c, d, ops)[i] == RunOnDisk(c, d1, ops[1..])[i - 1]
      && RunOnMap(m, ops)[i] == RunOnMap(m1, ops[1..])[i - 1]
  {
    hide OnDisk, OnMap;
    if i == 0 {
      assert ops[..i] == [];
    } else {
      assert ops[..i][0] == ops[0] && ops[..i][1..] == ops[1..][..i - 1];
    }
  }

  // ---------------------------------------------------------------- where no Delete misreports

  /** A file that no key leads to, with an absolute root below the first directory of it. While it is there,
      no Delete exhausts the root. */
  ghost predicate Guarded(c: Config, d: Disk, guard: Path)
    requires c.root != []
  {
    && guard in d && (c.kind == Absolute ==> c.root[..1] < guard)
    && forall k :: k in c.keys ==> !(guard <= c.PathOf(k))
  }

  lemma GuardKeeps(c: Config, d: Disk, op: Op, guard: Path)
    requires c.Valid() && Shaped(c, d) && op.key in c.keys && Guarded(c, d, guard)
    ensures Guarded(c, OnDisk(c, d, op).0, guard)
    ensures !Misreports(c, d, op)
  {
    var f := c.PathOf(op.key);
    assert !(guard <= f);
    assert f[..1] == c.root[..1];
    match op
    case Write(key, data, nonces) =>
      var content := match c.encryption case Some(g) => Encode(g, nonces, 0, data) case None => data;
      WriteSucceeds(c, d, key, content);
    case Read(_) =>
    case Has(_) =>
    case Delete(_) =>
  }

  /** On a plainly relative root, with any other file in the working directory for a dotted one, or with any other
      file below the first directory of an absolute one, a whole run answers exactly as a plain map would. */
  lemma {:induction false} RefinesMapThroughout(c: Config, d: Disk, m: map<Key, seq<byte>>, ops: seq<Op>, guard: Path)
    requires c.Valid() && Represents(c, d, m) && InUse(c, ops)
    requires c.kind != Relative ==> Guarded(c, d, guard)
    ensures RunOnDisk(c, d, ops) == RunOnMap(m, ops)
    decreases |ops|
  {
    if ops != [] {
      StepRefines(c, d, m, ops[0]);
      if c.kind != Relative {
        GuardKeeps(c, d, ops[0], guard);
      }
      hide Represents, OnDisk, OnMap, Guarded;
      RefinesMapThroughout(c, OnDisk(c, d, ops[0]).0, OnMap(m, ops[0]).0, ops[1..], guard);
    }
  }

  const KEY_FILE: Name := ".encryption_key"

  /** A store that encrypts keeps its key in a file in Root, and that file is such a guard. A Root that holds
      nothing else represents the empty map. */
  lemma FreshStore(c: Config, d: Disk, hash: Key -> string)
    requires c.root != [] && forall k :: |hash(k)| == 40 && c.transform(k) == PathKey(Blocks(hash(k)), hash(k))
    requires WellFormed(d) && c.root + [KEY_FILE] in d
    requires forall q :: q in d && c.root < q ==> q == c.root + [KEY_FILE]
    ensures Represents(c, d, map[]) && Guarded(c, d, c.root + [KEY_FILE])
  {
    var guard := c.root + [KEY_FILE];
    forall k
      ensures !(guard <= c.PathOf(k)) && c.PathOf(k) !in d
    {
      assert c.PathOf(k)[|c.root|] == Blocks(hash(k))[0] && |Blocks(hash(k))[0]| == BLOCK_SIZE;
      assert guard[|c.root|] == KEY_FILE;
      assert c.root < c.PathOf(k);
    }
    forall k, q | q in d && q <= c.Folder(k)
      ensures d[q].Dir?
    {
      assert q <= c.PathOf(k);
      assert q <= c.root || c.root < q;
      assert q == guard[..|q|];
      AncestorIn(d, guard, |q|);
    }
  }

  /** A disk that holds nothing but one stored file. */
  lemma LoneFileExhausts(c: Config, key: Key, content: seq<byte>)
    requires c.root != [] && c.kind != Relative
    ensures var d := Written(c, map[], key, content);
      && Exhausted(c, d, key)
      && Leaf(d, c.PathOf(key)) && Pruned(d, c.PathOf(key)) == map[]
  {
    var d, f := Written(c, map[], key, content), c.PathOf(key);
    FolderOf(c, key);
    forall r | r in d
      ensures r <= f && r != [] && (r != f ==> r < f)
    {
      assert r == f || r == c.Folder(key)[..|r|];
    }
    assert f in d && d[f].File?;
    forall q | q in d && q != f
      ensures Doomed(d, f, q)
    {
    }
    assert f[..1] == c.Folder(key)[..1];
    assert f[..1] in Prefixes(c.Folder(key));
  }

  /** Otherwise the answers can differ. With the content-addressed scheme, whatever the hash, and nothing else on
      the disk, deleting the one stored file removes it and reports an error: on the default root when the working
      directory held nothing else, and on an absolute one. */
  lemma LoneFile(kind: RootKind, hash: Key -> string, key: Key, data: seq<byte>) returns (c: Config, d: Disk)
    requires kind != Relative && forall k :: |hash(k)| == 40
    ensures c == Config(["storage"], kind, c.transform, None, {key})
    ensures forall k :: c.transform(k) == PathKey(Blocks(hash(k)), hash(k))
    ensures c.Valid() && Represents(c, d, map[key := data])
    ensures OnDisk(c, d, Delete(key)) == (map[], Error)
    ensures OnMap(map[key := data], Delete(key)) == (map[], Done)
  {
    c := Config(["storage"], kind, k => PathKey(Blocks(hash(k)), hash(k)), None, {key});
    CasSeparated(hash, c.transform, c.keys);
    d := Written(c, map[], key, data);
    hide *;
    FirstFile(c, key, data);
    LoneFileExhausts(c, key, data);
    DeleteOf(c, d, map[key := data], key);
  }

  lemma FirstFile(c: Config, key: Key, data: seq<byte>)
    requires c.Valid() && c.encryption == None && key in c.keys
    ensures Represents(c, Written(c, map[], key, data), map[key := data])
  {
    assert Represents(c, map[], map[]);
    hide Written, Represents;
    WriteRefines(c, map[], map[], key, data, data);
    assert map[][key := data] == map[key := data];
  }

  lemma DeleteOf(c: Config, d: Disk, m: map<Key, seq<byte>>, key: Key)
    requires c.root != []
    ensures OnMap(m, Delete(key)) == (m - {key}, if key in m then Done else Error)
    ensures Leaf(d, c.PathOf(key)) ==>
      OnDisk(c, d, Delete(key)) == (Pruned(d, c.PathOf(key)), if Exhausted(c, d, key) then Error else Done)
  {
  }

  // ---------------------------------------------------------------- empty directories, over whole runs

  lemma StepLeavesNoEmptyDir(c: Config, d: Disk, op: Op, q: Path)
    requires c.Valid() && Shaped(c, d) && op.key in c.keys && EmptyDir(OnDisk(c, d, op).0, q)
    ensures EmptyDir(d, q)
  {
    hide EmptyDir, Encode;
    match op
    case Write(key, data, nonces) =>
      var content := match c.encryption case Some(g) => Encode(g, nonces, 0, data) case None => data;
      WriteSucceeds(c, d, key, content);
      WriteLeavesNoEmptyDir(c, d, key, content, q);
    case Read(_) =>
    case Has(_) =>
    case Delete(key) =>
      if Leaf(d, c.PathOf(key)) {
        DeleteLeavesNoEmptyDir(d, c.PathOf(key), q);
      }
  }

  /** No run leaves an empty directory behind, above or below Root: one that is empty at the end was there,
      and empty, at the start. */
  lemma {:induction false} RunLeavesNoEmptyDir(c: Config, d: Disk, m: map<Key, seq<byte>>, ops: seq<Op>, q: Path)
    requires c.Valid() && Represents(c, d, m) && InUse(c, ops) && EmptyDir(DiskAfter(c, d, ops), q)
    ensures EmptyDir(d, q)
    decreases |ops|
  {
    if ops != [] {
      StepRefines(c, d, m, ops[0]);
      hide EmptyDir, OnDisk, OnMap, Misreports;
      assert Shaped(c, d);
      hide Represents;
      RunLeavesNoEmptyDir(c, OnDisk(c, d, ops[0]).0, OnMap(m, ops[0]).0, ops[1..], q);
      StepLeavesNoEmptyDir(c, d, ops[0], q);
    }
  }
}
