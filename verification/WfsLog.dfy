/** The log of WFS (wfs.h): entries, the latest entry of an inode, directories, path lookup, and
    the directory tree that the operations of mount.wfs.c keep. */
module WfsLog {
  import opened Common

  const INT: nat := 0x8000_0000
  const MAGIC: nat := 0xdeadbeef
  const SB: nat := 8                    // sizeof(struct wfs_sb)
  const INODE: nat := 44                // sizeof(struct wfs_inode)
  const NAME: nat := 32                 // MAX_FILE_NAME_LEN
  const DENTRY: nat := 40               // sizeof(struct wfs_dentry)
  const S_IFDIR: Uint := 0x4000
  const S_IFREG: Uint := 0x8000
  const SLASH: Byte := 47

  datatype Inode = Inode(number: Uint, deleted: Uint, mode: Uint, uid: Uint, gid: Uint, flags: Uint, size: Uint,
                         atime: Uint, mtime: Uint, ctime: Uint, links: Uint)

  datatype Entry = Entry(inode: Inode, data: seq<Byte>)

  datatype Dentry = Dentry(name: seq<Byte>, number: nat)

  /** S_ISDIR of the entry's mode. */
  predicate IsDir(e: Entry) {
    e.inode.mode / 0x1000 % 0x10 == 4
  }

  predicate Live(e: Entry, n: nat) {
    e.inode.number == n && e.inode.deleted == 0
  }

  // ---------------------------------------------------------------- words and names

  /** The number that little-endian bytes stand for. */
  function Num(b: seq<Byte>): nat {
    if b == [] then 0 else b[0] + 0x100 * Num(b[1..])
  }

  lemma {:induction false} NumFour(b: seq<Byte>)
    requires |b| == 4
    ensures Num(b) == b[0] + 0x100 * b[1] + 0x1_0000 * b[2] + 0x100_0000 * b[3] < UINT
  {
    var c := b[1..];
    var d := c[1..];
    var e := d[1..];
    assert c[0] == b[1] && d[0] == b[2] && e[0] == b[3] && e[1..] == [];
    assert Num(e) == b[3] && Num(d) == b[2] + 0x100 * Num(e) && Num(c) == b[1] + 0x100 * Num(d);
  }

  /** The 32-bit word at an offset. */
  function Word4(d: seq<Byte>, off: nat): (w: Uint)
    requires off + 4 <= |d|
  {
    NumFour(d[off..off + 4]);
    Num(d[off..off + 4])
  }

  function Bytes4(w: Uint): (b: seq<Byte>)
    ensures |b| == 4
  {
    [w % 0x100, w / 0x100 % 0x100, w / 0x1_0000 % 0x100, w / 0x100_0000]
  }

  lemma BytesOfWord(w: Uint)
    ensures Num(Bytes4(w)) == w
  {
    NumFour(Bytes4(w));
    Digits(w);
  }

  lemma WordOf(b: seq<Byte>, off: nat, w: Uint)
    requires off + 4 <= |b|
    ensures b[off..off + 4] == Bytes4(w) <==> Word4(b, off) == w
  {
    BytesOfWord(w);
    if Word4(b, off) == w {
      NumFixesBytes(b[off..off + 4], Bytes4(w));
    }
  }

  lemma NumFixesBytes(c: seq<Byte>, d: seq<Byte>)
    requires |c| == 4 && |d| == 4 && Num(c) == Num(d)
    ensures c == d
  {
    NumFour(c);
    NumFour(d);
    var c1: int, c2: int, c3: int := c[1], c[2], c[3];
    var d1: int, d2: int, d3: int := d[1], d[2], d[3];
    LowByte(c[0], c1 + 0x100 * c2 + 0x1_0000 * c3, d[0], d1 + 0x100 * d2 + 0x1_0000 * d3);
    LowByte(c[1], c2 + 0x100 * c3, d[1], d2 + 0x100 * d3);
    LowByte(c[2], c3, d[2], d3);
  }

  lemma LowByte(a: Byte, x: nat, b: Byte, y: nat)
    requires a + 0x100 * x == b + 0x100 * y
    ensures a == b && x == y
  {
  }

  /** The C string at the start of s. */
  function CStr(s: seq<Byte>): (r: seq<Byte>) {
    if s == [] || s[0] == 0 then [] else [s[0]] + CStr(s[1..])
  }

  /** The name field for a file name: at most 31 bytes, padded with zeros. */
  function FileName(f: seq<Byte>): (r: seq<Byte>)
    ensures |r| == NAME && r[NAME - 1] == 0
  {
    (if |f| < NAME then f else f[..NAME - 1]) + seq(if |f| < NAME then NAME - |f| else 1, _ => 0)
  }

  lemma {:induction false} CStrPadded(f: seq<Byte>, n: nat)
    requires 0 !in f && n > 0
    ensures CStr(f + seq(n, _ => 0)) == f
  {
    var s := f + seq(n, _ => 0);
    if f != [] {
      assert s[1..] == f[1..] + seq(n, _ => 0);
      CStrPadded(f[1..], n);
    }
  }

  /** A stored name is found again exactly when it has at most 31 bytes. */
  lemma NameKept(f: seq<Byte>)
    requires 0 !in f
    ensures CStr(FileName(f)) == (if |f| < NAME then f else f[..NAME - 1])
    ensures CStr(FileName(f)) == f <==> |f| < NAME
  {
    CStrPadded(if |f| < NAME then f else f[..NAME - 1], if |f| < NAME then NAME - |f| else 1);
  }

  // ---------------------------------------------------------------- directories

  function Decode(s: seq<Byte>): Dentry
    requires |s| == DENTRY
  {
    Dentry(s[..NAME], Word4(s, NAME) + UINT * Word4(s, NAME + 4))
  }

  function DentryAt(data: seq<Byte>, i: nat): Dentry
    requires DENTRY * (i + 1) <= |data|
  {
    Decode(data[DENTRY * i..DENTRY * (i + 1)])
  }

  function DentryBytes(d: Dentry): (b: seq<Byte>)
    requires |d.name| == NAME && d.number < UINT
    ensures |b| == DENTRY
  {
    d.name + Bytes4(d.number) + Bytes4(0)
  }

  function FirstDentries(data: seq<Byte>, n: nat): (ds: seq<Dentry>)
    requires DENTRY * n <= |data|
    ensures |ds| == n
  {
    if n == 0 then [] else FirstDentries(data, n - 1) + [DentryAt(data, n - 1)]
  }

  /** A directory's data as an array of struct wfs_dentry. */
  function Dentries(data: seq<Byte>): seq<Dentry> {
    FirstDentries(data, |data| / DENTRY)
  }

  lemma {:induction false} DentriesAt(data: seq<Byte>, n: nat, i: nat)
    requires i < n && DENTRY * n <= |data|
    ensures FirstDentries(data, n)[i] == DentryAt(data, i)
  {
    if i < n - 1 {
      DentriesAt(data, n - 1, i);
    }
  }

  /** Dentries depend on their own bytes only. */
  lemma {:induction false} DentriesSame(a: seq<Byte>, b: seq<Byte>, n: nat)
    requires DENTRY * n <= |a| && DENTRY * n <= |b| && a[..DENTRY * n] == b[..DENTRY * n]
    ensures FirstDentries(a, n) == FirstDentries(b, n)
  {
    if n > 0 {
      assert a[..DENTRY * (n - 1)] == a[..DENTRY * n][..DENTRY * (n - 1)];
      assert b[..DENTRY * (n - 1)] == b[..DENTRY * n][..DENTRY * (n - 1)];
      DentriesSame(a, b, n - 1);
      assert a[DENTRY * (n - 1)..DENTRY * n] == a[..DENTRY * n][DENTRY * (n - 1)..];
      assert b[DENTRY * (n - 1)..DENTRY * n] == b[..DENTRY * n][DENTRY * (n - 1)..];
    }
  }

  predicate DentryOk(d: Dentry) {
    |d.name| == NAME && 0 in d.name && d.number < INT
  }

  predicate DirOk(data: seq<Byte>) {
    |data| % DENTRY == 0 && forall d | d in Dentries(data) :: DentryOk(d)
  }

  predicate EntryOk(e: Entry) {
    e.inode.size == |e.data| && e.inode.number < INT && (IsDir(e) ==> DirOk(e.data))
  }

  lemma DentryEncoded(d: Dentry)
    requires |d.name| == NAME && d.number < UINT
    ensures Decode(DentryBytes(d)) == d
  {
    var b := DentryBytes(d);
    assert b[..NAME] == d.name;
    assert b[NAME..NAME + 4] == Bytes4(d.number) && b[NAME + 4..NAME + 8] == Bytes4(0);
    WordOf(b, NAME, d.number);
    WordOf(b, NAME + 4, 0);
  }

  lemma {:induction false} DentryAdded(data: seq<Byte>, d: Dentry)
    requires |data| % DENTRY == 0 && |d.name| == NAME && d.number < UINT
    ensures Dentries(data + DentryBytes(d)) == Dentries(data) + [d]
  {
    var n := |data| / DENTRY;
    DentryNext(data, n, d);
    assert |data + DentryBytes(d)| == DENTRY * (n + 1);
  }

  lemma {:induction false} DentryNext(data: seq<Byte>, n: nat, d: Dentry)
    requires |data| == DENTRY * n && |d.name| == NAME && d.number < UINT
    ensures FirstDentries(data + DentryBytes(d), n + 1) == FirstDentries(data, n) + [d]
  {
    var b := data + DentryBytes(d);
    assert b[..DENTRY * n] == data[..DENTRY * n];
    DentriesSame(b, data, n);
    assert b[DENTRY * n..DENTRY * (n + 1)] == DentryBytes(d);
    DentryEncoded(d);
  }

  // ---------------------------------------------------------------- the latest entry

  /** Which of the first k entries is the last undeleted one of inode n, or -1. */
  function Latest(es: seq<Entry>, n: nat, k: nat): (r: int)
    requires k <= |es|
    ensures -1 <= r < k
    ensures r >= 0 ==> Live(es[r], n)
  {
    if k == 0 then -1 else if Live(es[k - 1], n) then k - 1 else Latest(es, n, k - 1)
  }

  function Current(es: seq<Entry>, n: nat): (r: int)
    ensures -1 <= r < |es|
    ensures r >= 0 ==> Live(es[r], n)
  {
    Latest(es, n, |es|)
  }

  /** The highest inode number among the first k entries, deleted or not. */
  function MaxNumber(es: seq<Entry>, k: nat): (m: nat)
    requires k <= |es|
    ensures forall j | 0 <= j < k :: es[j].inode.number <= m
    ensures m == 0 || exists j | 0 <= j < k :: es[j].inode.number == m
  {
    if k == 0 then 0
    else if es[k - 1].inode.number > MaxNumber(es, k - 1) then es[k - 1].inode.number
    else MaxNumber(es, k - 1)
  }

  predicate Deletes(e: Entry, n: nat, e': Entry) {
    e' == if Live(e, n) then e.(inode := e.inode.(deleted := 1)) else e
  }

  /** The log with all entries of inode n marked deleted. */
  function Deleted(es: seq<Entry>, n: nat): (r: seq<Entry>)
    ensures |r| == |es| && forall k | 0 <= k < |es| :: Deletes(es[k], n, r[k])
  {
    seq(|es|, k requires 0 <= k < |es| => if Live(es[k], n) then es[k].(inode := es[k].inode.(deleted := 1)) else es[k])
  }

  /** What the file system holds: each live inode's latest entry. */
  ghost predicate Holds(es: seq<Entry>, n: nat, e: Entry) {
    Current(es, n) >= 0 && es[Current(es, n)] == e
  }

  /** Outside the inodes of the set nothing changed. */
  ghost predicate SameExcept(es: seq<Entry>, es': seq<Entry>, ns: set<nat>) {
    forall n: nat | n !in ns :: SameCurrent(es, es', n)
  }

  predicate SameCurrent(es: seq<Entry>, es': seq<Entry>, n: nat) {
    && (Current(es', n) >= 0 <==> Current(es, n) >= 0)
    && (Current(es, n) >= 0 ==> es'[Current(es', n)] == es[Current(es, n)])
  }

  lemma {:induction false} LatestIs(es: seq<Entry>, n: nat, k: nat)
    requires k <= |es|
    ensures forall j | Latest(es, n, k) < j < k :: !Live(es[j], n)
  {
    if k > 0 {
      LatestIs(es, n, k - 1);
    }
  }

  lemma {:induction false} LatestSame(es: seq<Entry>, es': seq<Entry>, n: nat, m: nat, k: nat)
    requires k <= |es| && k <= |es'| && forall j | 0 <= j < k :: Live(es[j], n) <==> Live(es'[j], m)
    ensures Latest(es, n, k) == Latest(es', m, k)
  {
    if k > 0 {
      LatestSame(es, es', n, m, k - 1);
    }
  }

  lemma {:induction false} LatestNone(es: seq<Entry>, n: nat, k: nat)
    requires k <= |es| && forall j | 0 <= j < k :: !Live(es[j], n)
    ensures Latest(es, n, k) == -1
  {
    if k > 0 {
      LatestNone(es, n, k - 1);
    }
  }

  lemma {:induction false} CurrentAdded(es: seq<Entry>, e: Entry, n: nat)
    ensures Current(es + [e], n) == if Live(e, n) then |es| else Current(es, n)
  {
    LatestSame(es + [e], es, n, n, |es|);
  }

  lemma {:induction false} CurrentDeleted(es: seq<Entry>, d: nat, n: nat)
    ensures Current(Deleted(es, d), n) == if n == d then -1 else Current(es, n)
  {
    var r := Deleted(es, d);
    forall j | 0 <= j < |es|
      ensures Live(r[j], n) <==> n != d && Live(es[j], n)
    {
      assert Deletes(es[j], d, r[j]);
    }
    if n == d {
      LatestNone(r, n, |es|);
    } else {
      LatestSame(r, es, n, n, |es|);
    }
  }

  lemma NumberFresh(es: seq<Entry>)
    ensures Current(es, MaxNumber(es, |es|) + 1) == -1
  {
  }

  // ---------------------------------------------------------------- path lookup

  /** The first dentry from i on with the given name whose inode is live, or -1. */
  function FirstMatch(es: seq<Entry>, ds: seq<Dentry>, tok: seq<Byte>, i: nat): (r: int)
    requires i <= |ds|
    ensures r == -1 || i <= r < |ds|
    ensures r >= 0 ==> Names(es, ds[r], tok)
    ensures forall j | i <= j < (if r == -1 then |ds| else r) :: !Names(es, ds[j], tok)
    decreases |ds| - i
  {
    if i == |ds| then -1 else if Names(es, ds[i], tok) then i else FirstMatch(es, ds, tok, i + 1)
  }

  predicate Names(es: seq<Entry>, d: Dentry, tok: seq<Byte>) {
    CStr(d.name) == tok && Current(es, d.number % UINT) >= 0
  }

  /** The inode that the directory entry e lists under tok, or -1. */
  function Child(es: seq<Entry>, e: Entry, tok: seq<Byte>): (r: int)
    ensures r == -1 || (0 <= r < UINT && Current(es, r) >= 0)
  {
    if !IsDir(e) then -1
    else
      var i := FirstMatch(es, Dentries(e.data), tok, 0);
      if i == -1 then -1 else Dentries(e.data)[i].number % UINT
  }

  /** find_log_entry_by_path's scan from the k-th entry on, with tokens still to find. */
  function Scan(es: seq<Entry>, k: nat, toks: seq<seq<Byte>>): (r: int)
    requires toks != []
    ensures -1 <= r < |es|
    ensures r >= 0 ==> r == Current(es, es[r].inode.number)
    decreases |toks|, |es| - k
  {
    if k >= |es| then -1
    else
      var n := Child(es, es[k], toks[0]);
      if n == -1 then Scan(es, k + 1, toks)
      else if |toks| == 1 then Current(es, n)
      else Scan(es, Current(es, n), toks[1..])
  }

  /** What the scan starts from: entry 0, which need not be the latest of the root. */
  function Lookup(es: seq<Entry>, toks: seq<seq<Byte>>): (r: int)
    requires es != []
    ensures -1 <= r < |es|
    ensures r >= 0 ==> r == Current(es, es[r].inode.number)
  {
    if toks == [] then Current(es, es[0].inode.number) else Scan(es, 0, toks)
  }

  /** The entry that the tokens name in the directory tree under inode n, or -1. */
  function Resolve(es: seq<Entry>, n: nat, toks: seq<seq<Byte>>): (r: int)
    ensures -1 <= r < |es|
    ensures r >= 0 ==> r == Current(es, es[r].inode.number)
    decreases |toks|
  {
    var l := Current(es, n);
    if toks == [] || l == -1 then l
    else
      var c := Child(es, es[l], toks[0]);
      if c == -1 then -1 else Resolve(es, c, toks[1..])
  }

  /** The inode of the first live name tok in the log from the k-th entry on, or -1. */
  function FirstNamed(es: seq<Entry>, tok: seq<Byte>, k: nat): (r: int)
    ensures r == -1 || (0 <= r < UINT && Current(es, r) >= 0)
    ensures r >= 0 ==> exists j | k <= j < |es| :: Child(es, es[j], tok) == r
    ensures r == -1 ==> forall j | k <= j < |es| :: Child(es, es[j], tok) == -1
    decreases |es| - k
  {
    if k >= |es| then -1
    else if Child(es, es[k], tok) >= 0 then Child(es, es[k], tok)
    else FirstNamed(es, tok, k + 1)
  }

  /** The scan goes to the first live occurrence of its first token, wherever that is. */
  lemma {:induction false} ScanFirst(es: seq<Entry>, k: nat, toks: seq<seq<Byte>>)
    requires toks != []
    ensures var n := FirstNamed(es, toks[0], k);
            Scan(es, k, toks) == if n == -1 then -1
                                 else if |toks| == 1 then Current(es, n) else Scan(es, Current(es, n), toks[1..])
    decreases |es| - k
  {
    if k < |es| && Child(es, es[k], toks[0]) == -1 {
      ScanFirst(es, k + 1, toks);
    }
  }

  /** From a directory's latest entry on, the scan follows the tree. */
  lemma {:induction false} ScanFollows(es: seq<Entry>, n: nat, toks: seq<seq<Byte>>)
    requires toks != [] && Resolve(es, n, toks) >= 0
    ensures Scan(es, Current(es, n), toks) == Resolve(es, n, toks)
    decreases |toks|
  {
    var c := Child(es, es[Current(es, n)], toks[0]);
    if |toks| > 1 {
      ScanFollows(es, c, toks[1..]);
    }
  }

  /** Path lookup, exactly: paths that begin with the name tok and resolve in the tree are all
      looked up rightly if and only if the first live occurrence of that name in the log is the
      root directory's. */
  lemma {:induction false} LookupExact(es: seq<Entry>, root: nat, tok: seq<Byte>)
    requires es != [] && Current(es, root) >= 0 && Child(es, es[Current(es, root)], tok) >= 0
    ensures (forall rest: seq<seq<Byte>> | Resolve(es, root, [tok] + rest) >= 0 ::
               Lookup(es, [tok] + rest) == Resolve(es, root, [tok] + rest))
            <==> FirstNamed(es, tok, 0) == Child(es, es[Current(es, root)], tok)
  {
    var n := Child(es, es[Current(es, root)], tok);
    if FirstNamed(es, tok, 0) == n {
      forall rest: seq<seq<Byte>> | Resolve(es, root, [tok] + rest) >= 0
        ensures Lookup(es, [tok] + rest) == Resolve(es, root, [tok] + rest)
      {
        LookupFollows(es, root, [tok] + rest);
      }
    } else {
      var one := [tok] + [];
      assert one[1..] == [];
      assert Resolve(es, root, one) == Current(es, n);
      ScanFirst(es, 0, one);
      assert Lookup(es, one) != Resolve(es, root, one);
    }
  }

  lemma {:induction false} LookupFollows(es: seq<Entry>, root: nat, toks: seq<seq<Byte>>)
    requires es != [] && toks != [] && Resolve(es, root, toks) >= 0
    requires FirstNamed(es, toks[0], 0) == Child(es, es[Current(es, root)], toks[0])
    ensures Lookup(es, toks) == Resolve(es, root, toks)
  {
    ScanFirst(es, 0, toks);
    if |toks| > 1 {
      ScanFollows(es, FirstNamed(es, toks[0], 0), toks[1..]);
    }
  }

  /** A single name is found if and only if some directory entry of the log, in the root or not,
      lists it live: an unresolvable path may be found. */
  lemma LookupName(es: seq<Entry>, tok: seq<Byte>)
    requires es != []
    ensures Lookup(es, [tok]) >= 0 <==> exists k | 0 <= k < |es| :: Child(es, es[k], tok) >= 0
  {
    ScanFirst(es, 0, [tok]);
  }

  function Plain(number: Uint, mode: Uint, data: seq<Byte>): Entry
    requires |data| < UINT
  {
    Entry(Inode(number, 0, mode, 0, 0, 0, |data|, 0, 0, 0, 1), data)
  }

  /** The log of a root directory that lists only the directory d, which lists only the file x. */
  function DirWithFile(d: seq<Byte>, x: seq<Byte>): seq<Entry> {
    [Plain(0, S_IFDIR, DentryBytes(Dentry(FileName(d), 1))),
     Plain(1, S_IFDIR, DentryBytes(Dentry(FileName(x), 2))),
     Plain(2, S_IFREG, [])]
  }

  /** In it the path /x does not exist, and is found. */
  lemma {:induction false} StrayName(d: seq<Byte>, x: seq<Byte>)
    requires 0 !in d && 0 !in x && |d| < NAME && |x| < NAME && d != x
    ensures Resolve(DirWithFile(d, x), 0, [x]) == -1
    ensures Lookup(DirWithFile(d, x), [x]) == 2
  {
    var es, a, b := DirWithFile(d, x), Dentry(FileName(d), 1), Dentry(FileName(x), 2);
    assert [] + DentryBytes(a) == DentryBytes(a) && [] + DentryBytes(b) == DentryBytes(b);
    DentryAdded([], a);
    DentryAdded([], b);
    assert Dentries([]) == [];
    NameKept(d);
    NameKept(x);
    assert Latest(es, 0, 1) == 0 && Latest(es, 0, 2) == 0;
    assert Latest(es, 1, 2) == 1;
    assert Current(es, 0) == 0 && Current(es, 1) == 1 && Current(es, 2) == 2;
    assert !Names(es, a, x) && Names(es, b, x);
    assert Child(es, es[0], x) == -1 && Child(es, es[1], x) == 2;
    assert Scan(es, 1, [x]) == 2;
  }

  // ---------------------------------------------------------------- the directory tree

  /** The dentries of inode n's latest entry, if that is a directory. */
  function Listing(es: seq<Entry>, n: nat): seq<Dentry> {
    if Current(es, n) >= 0 && IsDir(es[Current(es, n)]) then Dentries(es[Current(es, n)].data) else []
  }

  predicate Used(es: seq<Entry>, n: nat) {
    exists k | 0 <= k < |es| :: es[k].inode.number == n
  }

  /** What an old version of a directory lists has been created and, while it lives, is still listed. */
  ghost predicate Kept(es: seq<Entry>, k: nat)
    requires k < |es|
  {
    IsDir(es[k]) ==> forall d | d in Dentries(es[k].data) ::
      Used(es, d.number) && (Current(es, d.number) >= 0 ==> d in Listing(es, es[k].inode.number))
  }

  /** The place i of directory n lists the inode m. */
  predicate Lists(es: seq<Entry>, n: nat, i: nat, m: nat) {
    i < |Listing(es, n)| && Listing(es, n)[i].number == m
  }

  ghost predicate EntriesOk(es: seq<Entry>) {
    forall k | 0 <= k < |es| :: EntryOk(es[k]) && Kept(es, k)
  }

  ghost predicate ListsLive(es: seq<Entry>) {
    forall n, i, m | Lists(es, n, i, m) :: Current(es, m) >= 0
  }

  ghost predicate ListsOnce(es: seq<Entry>) {
    forall n, i, m, n', i' | Lists(es, n, i, m) && Lists(es, n', i', m) :: n == n' && i == i'
  }

  /** Directories form a forest of live inodes. */
  ghost predicate TreeOk(es: seq<Entry>) {
    EntriesOk(es) && ListsLive(es) && ListsOnce(es)
  }

  predicate NamedAt(es: seq<Entry>, n: nat, i: nat, tok: seq<Byte>) {
    i < |Listing(es, n)| && CStr(Listing(es, n)[i].name) == tok
  }

  /** No live name occurs twice in the tree. */
  ghost predicate UniqueNames(es: seq<Entry>) {
    forall n, i, n', i', tok | NamedAt(es, n, i, tok) && NamedAt(es, n', i', tok) :: n == n' && i == i'
  }

  /** With unique names, every path that resolves in the tree is looked up rightly, although the
      scan begins at an old entry of the root. */
  lemma {:induction false} LookupInTree(es: seq<Entry>, root: nat, toks: seq<seq<Byte>>)
    requires es != [] && TreeOk(es) && UniqueNames(es) && es[0].inode.number == root
    requires Resolve(es, root, toks) >= 0
    ensures Lookup(es, toks) == Resolve(es, root, toks)
  {
    if toks != [] {
      var tok := toks[0];
      var n, f := Child(es, es[Current(es, root)], tok), FirstNamed(es, tok, 0);
      var k :| 0 <= k < |es| && Child(es, es[k], tok) == f;
      ListedIsCurrent(es, k, tok);
      ListedIsCurrent(es, Current(es, root), tok);
      SameChild(es, es[k].inode.number, root, tok, f, n);
      LookupFollows(es, root, toks);
    }
  }

  lemma {:induction false} SameChild(es: seq<Entry>, n: nat, n': nat, tok: seq<Byte>, m: nat, m': nat)
    requires UniqueNames(es)
    requires (exists i :: ListedAt(es, n, i, tok, m)) && exists i :: ListedAt(es, n', i, tok, m')
    ensures m == m'
  {
    var i :| ListedAt(es, n, i, tok, m);
    var i' :| ListedAt(es, n', i', tok, m');
    assert NamedAt(es, n, i, tok) && NamedAt(es, n', i', tok);
  }

  predicate ListedAt(es: seq<Entry>, n: nat, i: nat, tok: seq<Byte>, m: nat) {
    NamedAt(es, n, i, tok) && Lists(es, n, i, m)
  }

  /** A live name in any version of a directory is in the latest one. */
  lemma {:induction false} ListedIsCurrent(es: seq<Entry>, k: nat, tok: seq<Byte>)
    requires TreeOk(es) && k < |es| && Child(es, es[k], tok) >= 0
    ensures exists i: nat :: ListedAt(es, es[k].inode.number, i, tok, Child(es, es[k], tok))
  {
    var ds, n := Dentries(es[k].data), es[k].inode.number;
    var d := ds[FirstMatch(es, ds, tok, 0)];
    assert d in ds && EntryOk(es[k]) && Kept(es, k);
    assert DentryOk(d) && d in Listing(es, n);
    var i: nat :| 0 <= i < |Listing(es, n)| && Listing(es, n)[i] == d;
    assert ListedAt(es, n, i, tok, d.number);
  }

  // ---------------------------------------------------------------- what the operations do to it

  /** The log after a write to inode n: its data becomes data. */
  ghost predicate WroteBy(es: seq<Entry>, n: nat, data: seq<Byte>, es': seq<Entry>, e: Entry) {
    es' == es + [e] && Live(e, n) && EntryOk(e) && !IsDir(e) && e.data == data
  }

  ghost predicate Wrote(es: seq<Entry>, n: nat, data: seq<Byte>, es': seq<Entry>) {
    exists e :: WroteBy(es, n, data, es', e)
  }

  lemma {:induction false} WroteEffect(es: seq<Entry>, n: nat, data: seq<Byte>, es': seq<Entry>)
    requires TreeOk(es) && Wrote(es, n, data, es') && Current(es, n) >= 0 && !IsDir(es[Current(es, n)])
    ensures Current(es', n) >= 0 && es'[Current(es', n)].data == data
    ensures SameExcept(es, es', {n}) && TreeOk(es')
  {
    var e :| WroteBy(es, n, data, es', e);
    forall m
      ensures Current(es', m) == (if m == n then |es| else Current(es, m)) && Listing(es', m) == Listing(es, m)
    {
      CurrentAdded(es, e, m);
    }
    assert forall m, i, c :: Lists(es', m, i, c) <==> Lists(es, m, i, c);
    forall k | 0 <= k < |es'|
      ensures EntryOk(es'[k]) && Kept(es', k)
    {
      if k < |es| {
        assert es'[k] == es[k] && Kept(es, k);
        UsedAdded(es, [e]);
      }
    }
  }

  lemma UsedAdded(es: seq<Entry>, more: seq<Entry>)
    ensures forall n | Used(es, n) :: Used(es + more, n)
    ensures forall e | e in more :: Used(es + more, e.inode.number)
  {
    forall n | Used(es, n)
      ensures Used(es + more, n)
    {
      var k :| 0 <= k < |es| && es[k].inode.number == n;
      assert (es + more)[k].inode.number == n;
    }
    forall e | e in more
      ensures Used(es + more, e.inode.number)
    {
      var k :| 0 <= k < |more| && more[k] == e;
      assert (es + more)[|es| + k] == e;
    }
  }

  /** The log after a new inode, an empty one, is listed in the directory of entry p under name: e is
      the new version of the directory and f the inode's first entry. */
  ghost predicate MadeBy(es: seq<Entry>, p: nat, name: seq<Byte>, mode: Uint, es': seq<Entry>, e: Entry, f: Entry)
    requires p < |es|
  {
    var num := MaxNumber(es, |es|) + 1;
    && es' == es + [e, f] && Live(e, es[p].inode.number) && Live(f, num)
    && EntryOk(e) && IsDir(e) && EntryOk(f) && f.inode.mode == mode && f.data == []
    && Dentries(e.data) == Dentries(es[p].data) + [Dentry(name, num)]
  }

  ghost predicate Made(es: seq<Entry>, p: nat, name: seq<Byte>, mode: Uint, es': seq<Entry>)
    requires p < |es|
  {
    exists e, f :: MadeBy(es, p, name, mode, es', e, f)
  }

  /** Create adds one live inode, with a number that no entry of the log ever had, and one dentry. */
  lemma {:induction false} MadeEffect(es: seq<Entry>, p: nat, name: seq<Byte>, mode: Uint, es': seq<Entry>)
    requires TreeOk(es) && p < |es| && Made(es, p, name, mode, es') && IsDir(es[p])
             && Current(es, es[p].inode.number) == p
    ensures var n, num := es[p].inode.number, MaxNumber(es, |es|) + 1;
            && !Used(es, num) && num != n && Current(es', num) >= 0 && es'[Current(es', num)].inode.mode == mode
            && es'[Current(es', num)].data == []
            && Listing(es', n) == Listing(es, n) + [Dentry(name, num)]
            && SameExcept(es, es', {n, num}) && TreeOk(es')
  {
    var e, f :| MadeBy(es, p, name, mode, es', e, f);
    MadeEntries(es, p, name, e, f);
  }

  lemma {:induction false} MadeEntries(es: seq<Entry>, p: nat, name: seq<Byte>, e: Entry, f: Entry)
    requires TreeOk(es) && p < |es| && IsDir(es[p]) && Current(es, es[p].inode.number) == p && EntryOk(e) && EntryOk(f)
    requires Live(e, es[p].inode.number) && Live(f, MaxNumber(es, |es|) + 1) && IsDir(e) && f.data == []
    requires Dentries(e.data) == Dentries(es[p].data) + [Dentry(name, MaxNumber(es, |es|) + 1)]
    ensures var es', n, num := es + [e, f], es[p].inode.number, MaxNumber(es, |es|) + 1;
            && !Used(es, num) && num != n && Current(es', num) == |es| + 1
            && Listing(es', n) == Listing(es, n) + [Dentry(name, num)]
            && SameExcept(es, es', {n, num}) && TreeOk(es')
  {
    NumberFresh(es);
    MadeAll(es, p, name, e, f);
    MadeOthers(es, p, name, e, f);
    MadeTree(es, p, name, e, f);
  }

  lemma {:induction false} MadeAll(es: seq<Entry>, p: nat, name: seq<Byte>, e: Entry, f: Entry)
    requires p < |es| && IsDir(es[p]) && Current(es, es[p].inode.number) == p
    requires Live(e, es[p].inode.number) && Live(f, MaxNumber(es, |es|) + 1) && IsDir(e) && f.data == []
    requires Dentries(e.data) == Dentries(es[p].data) + [Dentry(name, MaxNumber(es, |es|) + 1)]
    ensures var es', n, num := es + [e, f], es[p].inode.number, MaxNumber(es, |es|) + 1;
            && (forall m :: Current(es', m) == if m == n then |es| else if m == num then |es| + 1 else Current(es, m))
            && (forall m :: Listing(es', m) == if m == n then Listing(es, n) + [Dentry(name, num)]
                                               else if m == num then [] else Listing(es, m))
  {
    var es', n, num := es + [e, f], es[p].inode.number, MaxNumber(es, |es|) + 1;
    forall m
      ensures Current(es', m) == if m == n then |es| else if m == num then |es| + 1 else Current(es, m)
      ensures Listing(es', m) == if m == n then Listing(es, n) + [Dentry(name, num)]
                                 else if m == num then [] else Listing(es, m)
    {
      MadeCurrent(es, p, name, e, f, m);
    }
  }

  lemma {:induction false} MadeOthers(es: seq<Entry>, p: nat, name: seq<Byte>, e: Entry, f: Entry)
    requires p < |es| && IsDir(es[p]) && Current(es, es[p].inode.number) == p
    requires Live(e, es[p].inode.number) && Live(f, MaxNumber(es, |es|) + 1) && IsDir(e) && f.data == []
    requires Dentries(e.data) == Dentries(es[p].data) + [Dentry(name, MaxNumber(es, |es|) + 1)]
    ensures SameExcept(es, es + [e, f], {es[p].inode.number, MaxNumber(es, |es|) + 1})
  {
    forall m: nat | m != es[p].inode.number && m != MaxNumber(es, |es|) + 1
      ensures SameCurrent(es, es + [e, f], m)
    {
      MadeCurrent(es, p, name, e, f, m);
    }
  }

  lemma {:induction false} MadeCurrent(es: seq<Entry>, p: nat, name: seq<Byte>, e: Entry, f: Entry, m: nat)
    requires p < |es| && IsDir(es[p]) && Current(es, es[p].inode.number) == p
    requires Live(e, es[p].inode.number) && Live(f, MaxNumber(es, |es|) + 1) && IsDir(e) && f.data == []
    requires Dentries(e.data) == Dentries(es[p].data) + [Dentry(name, MaxNumber(es, |es|) + 1)]
    ensures var es', n, num := es + [e, f], es[p].inode.number, MaxNumber(es, |es|) + 1;
            && Current(es', m) == (if m == n then |es| else if m == num then |es| + 1 else Current(es, m))
            && Listing(es', m) == (if m == n then Listing(es, n) + [Dentry(name, num)]
                                   else if m == num then [] else Listing(es, m))
            && (m != n && m != num ==> SameCurrent(es, es', m))
  {
    assert es + [e, f] == (es + [e]) + [f];
    assert Dentries(f.data) == [];
    CurrentAdded(es, e, m);
    CurrentAdded(es + [e], f, m);
  }

  lemma {:induction false} MadeTree(es: seq<Entry>, p: nat, name: seq<Byte>, e: Entry, f: Entry)
    requires TreeOk(es) && p < |es| && IsDir(es[p]) && Current(es, es[p].inode.number) == p && EntryOk(e) && EntryOk(f)
    requires Live(e, es[p].inode.number) && Live(f, MaxNumber(es, |es|) + 1) && IsDir(e) && f.data == []
    requires Dentries(e.data) == Dentries(es[p].data) + [Dentry(name, MaxNumber(es, |es|) + 1)]
    requires var es', n, num := es + [e, f], es[p].inode.number, MaxNumber(es, |es|) + 1;
             && (forall m :: Current(es', m) == if m == n then |es| else if m == num then |es| + 1 else Current(es, m))
             && forall m :: Listing(es', m) == if m == n then Listing(es, n) + [Dentry(name, num)]
                                               else if m == num then [] else Listing(es, m)
    ensures TreeOk(es + [e, f])
  {
    var es', n, num := es + [e, f], es[p].inode.number, MaxNumber(es, |es|) + 1;
    NumberFresh(es);
    assert Dentries(f.data) == [];
    MadeListings(es, es', n, num, name);
    forall k | 0 <= k < |es'|
      ensures EntryOk(es'[k]) && Kept(es', k)
    {
      MadeKept(es, p, k, e, f, n, num, name);
    }
  }

  lemma {:induction false} MadeListings(es: seq<Entry>, es': seq<Entry>, n: nat, num: nat, name: seq<Byte>)
    requires ListsLive(es) && ListsOnce(es) && Current(es, num) == -1
    requires Current(es', num) >= 0 && forall m | Current(es, m) >= 0 :: Current(es', m) >= 0
    requires forall m :: Listing(es', m) == if m == n then Listing(es, n) + [Dentry(name, num)]
                                            else if m == num then [] else Listing(es, m)
    ensures ListsLive(es') && ListsOnce(es')
  {
    forall m, i, c | Lists(es', m, i, c)
      ensures MadePlace(es, n, num, m, i, c)
    {
      MadeLists(es, es', n, num, name, m, i, c);
    }
    MadeOnce(es, es', n, num);
  }

  ghost predicate MadePlace(es: seq<Entry>, n: nat, num: nat, m: nat, i: nat, c: nat) {
    (c != num && Lists(es, m, i, c)) || (m == n && i == |Listing(es, n)| && c == num)
  }

  lemma {:induction false} MadeLists(es: seq<Entry>, es': seq<Entry>, n: nat, num: nat, name: seq<Byte>, m: nat,
                                     i: nat, c: nat)
    requires ListsLive(es) && Current(es, num) == -1
    requires Listing(es', m) == if m == n then Listing(es, n) + [Dentry(name, num)]
                                else if m == num then [] else Listing(es, m)
    requires Lists(es', m, i, c)
    ensures MadePlace(es, n, num, m, i, c)
  {
    if i < |Listing(es, m)| {
      assert Lists(es, m, i, c);
    }
  }

  lemma {:induction false} MadeOnce(es: seq<Entry>, es': seq<Entry>, n: nat, num: nat)
    requires ListsLive(es) && ListsOnce(es)
    requires forall m, i, c | Lists(es', m, i, c) :: MadePlace(es, n, num, m, i, c)
    requires Current(es', num) >= 0 && forall m | Current(es, m) >= 0 :: Current(es', m) >= 0
    ensures ListsLive(es') && ListsOnce(es')
  {
    forall m, i, c | Lists(es', m, i, c)
      ensures Current(es', c) >= 0
    {
      assert MadePlace(es, n, num, m, i, c);
    }
    forall m, i, c, m', i' | Lists(es', m, i, c) && Lists(es', m', i', c)
      ensures m == m' && i == i'
    {
      assert MadePlace(es, n, num, m, i, c) && MadePlace(es, n, num, m', i', c);
    }
  }

  lemma {:induction false} MadeKept(es: seq<Entry>, p: nat, k: nat, e: Entry, f: Entry, n: nat, num: nat,
                                    name: seq<Byte>)
    requires p < |es| && k < |es| + 2 && EntriesOk(es) && !Used(es, num) && EntryOk(e) && EntryOk(f) && f.data == []
    requires e.inode.number == n && f.inode.number == num && IsDir(es[p]) && es[p].inode.number == n
    requires Dentries(e.data) == Dentries(es[p].data) + [Dentry(name, num)] && Dentries(f.data) == []
    requires Listing(es, n) == Dentries(es[p].data)
    requires forall m | m != n && m != num :: Current(es + [e, f], m) == Current(es, m)
    requires forall m :: Current(es + [e, f], m) >= 0 ==> Current(es, m) >= 0 || m == num
    requires Listing(es + [e, f], n) == Listing(es, n) + [Dentry(name, num)]
    requires forall m | m != n && m != num :: Listing(es + [e, f], m) == Listing(es, m)
    ensures EntryOk((es + [e, f])[k]) && Kept(es + [e, f], k)
  {
    var es' := es + [e, f];
    var k0 := if k < |es| then k else p;
    assert EntryOk(es[k0]) && Kept(es, k0);
    UsedAdded(es, [e, f]);
    assert f in [e, f];
    if k < |es| {
      assert Used(es, es[k].inode.number);
    }
  }

  /** The dentries that do not list inode n. */
  function Without(ds: seq<Dentry>, n: nat): seq<Dentry> {
    if ds == [] then []
    else Without(ds[..|ds| - 1], n) + if ds[|ds| - 1].number == n then [] else [ds[|ds| - 1]]
  }

  lemma {:induction false} WithoutIn(ds: seq<Dentry>, n: nat, d: Dentry)
    ensures d in Without(ds, n) <==> d in ds && d.number != n
  {
    if ds != [] {
      WithoutIn(ds[..|ds| - 1], n, d);
      assert ds == ds[..|ds| - 1] + [ds[|ds| - 1]];
    }
  }

  /** The log after the file n, listed in the directory of entry p, is removed: e is the new version
      of the directory. */
  ghost predicate RemovedBy(es: seq<Entry>, p: nat, n: nat, es': seq<Entry>, e: Entry)
    requires p < |es|
  {
    && es' == Deleted(es, n) + [e] && Live(e, es[p].inode.number) && EntryOk(e) && IsDir(e)
    && Dentries(e.data) == Without(Dentries(es[p].data), n)
  }

  ghost predicate Removed(es: seq<Entry>, p: nat, n: nat, es': seq<Entry>)
    requires p < |es|
  {
    exists e :: RemovedBy(es, p, n, es', e)
  }

  /** Where a filtered sequence's elements were. */
  lemma {:induction false} WithoutFrom(ds: seq<Dentry>, n: nat, i: nat, j: nat)
    requires i < |Without(ds, n)| && j < |Without(ds, n)|
    ensures exists i', j' ::
              0 <= i' < |ds| && 0 <= j' < |ds| && ds[i'] == Without(ds, n)[i] && ds[j'] == Without(ds, n)[j]
                             && (i' == j' ==> i == j)
  {
    var last, m := |ds| - 1, |Without(ds[..|ds| - 1], n)|;
    if i < m && j < m {
      WithoutFrom(ds[..last], n, i, j);
      var i', j' :| 0 <= i' < last && 0 <= j' < last && ds[..last][i'] == Without(ds[..last], n)[i]
                    && ds[..last][j'] == Without(ds[..last], n)[j] && (i' == j' ==> i == j);
      assert ds[i'] == Without(ds, n)[i] && ds[j'] == Without(ds, n)[j];
    } else if i < m {
      WithoutFrom(ds[..last], n, i, i);
      var i' :| 0 <= i' < last && ds[..last][i'] == Without(ds[..last], n)[i];
      assert ds[i'] == Without(ds, n)[i] && ds[last] == Without(ds, n)[j];
    } else if j < m {
      WithoutFrom(ds[..last], n, j, j);
      var j' :| 0 <= j' < last && ds[..last][j'] == Without(ds[..last], n)[j];
      assert ds[last] == Without(ds, n)[i] && ds[j'] == Without(ds, n)[j];
    } else {
      assert ds[last] == Without(ds, n)[i];
    }
  }

  /** Unlink removes one live inode and its dentry. */
  lemma {:induction false} RemovedEffect(es: seq<Entry>, p: nat, i: nat, n: nat, es': seq<Entry>)
    requires TreeOk(es) && p < |es| && IsDir(es[p]) && Current(es, es[p].inode.number) == p
    requires Current(es, n) >= 0 && !IsDir(es[Current(es, n)]) && Lists(es, es[p].inode.number, i, n)
    requires Removed(es, p, n, es')
    ensures var d := es[p].inode.number;
            && Current(es', n) == -1 && Listing(es', d) == Without(Listing(es, d), n)
            && SameExcept(es, es', {d, n}) && TreeOk(es')
  {
    var d := es[p].inode.number;
    var e :| RemovedBy(es, p, n, es', e);
    forall m
      ensures Current(es', m) == (if m == d then |es| else if m == n then -1 else Current(es, m))
      ensures Listing(es', m) == if m == d then Without(Listing(es, d), n) else Listing(es, m)
      ensures m != d && m != n ==> SameCurrent(es, es', m)
    {
      RemovedCurrent(es, p, n, e, m);
    }
    RemovedTree(es, d, n, es', e);
  }

  lemma {:induction false} RemovedCurrent(es: seq<Entry>, p: nat, n: nat, e: Entry, m: nat)
    requires p < |es| && IsDir(es[p]) && Current(es, es[p].inode.number) == p && Live(e, es[p].inode.number) && IsDir(e)
    requires Current(es, n) >= 0 && !IsDir(es[Current(es, n)]) && Dentries(e.data) == Without(Dentries(es[p].data), n)
    ensures var es', d := Deleted(es, n) + [e], es[p].inode.number;
            && Current(es', m) == (if m == d then |es| else if m == n then -1 else Current(es, m))
            && Listing(es', m) == (if m == d then Without(Listing(es, d), n) else Listing(es, m))
            && (m != d && m != n ==> SameCurrent(es, es', m))
  {
    CurrentAdded(Deleted(es, n), e, m);
    CurrentDeleted(es, n, m);
    if Current(es, m) >= 0 {
      assert Deletes(es[Current(es, m)], n, Deleted(es, n)[Current(es, m)]);
    }
  }

  lemma {:induction false} RemovedTree(es: seq<Entry>, d: nat, n: nat, es': seq<Entry>, e: Entry)
    requires TreeOk(es) && es' == Deleted(es, n) + [e] && Live(e, d) && d != n && EntryOk(e) && IsDir(e)
    requires Current(es, n) >= 0 && !IsDir(es[Current(es, n)]) && Current(es, d) >= 0 && IsDir(es[Current(es, d)])
    requires Dentries(e.data) == Without(Listing(es, d), n) && exists i :: Lists(es, d, i, n)
    requires forall m :: Current(es', m) == if m == d then |es| else if m == n then -1 else Current(es, m)
    requires forall m :: Listing(es', m) == if m == d then Without(Listing(es, d), n) else Listing(es, m)
    ensures TreeOk(es')
  {
    forall k | 0 <= k < |es'|
      ensures EntryOk(es'[k]) && Kept(es', k)
    {
      RemovedKept(es, d, n, es', e, k);
    }
    forall m, j, c, m', j' | Lists(es', m, j, c) && Lists(es', m', j', c)
      ensures m == m' && j == j'
    {
      RemovedOnce(es, d, n, es', m, j, m', j', c);
    }
    var i :| Lists(es, d, i, n);
    forall m, j, c | Lists(es', m, j, c)
      ensures Current(es', c) >= 0
    {
      RemovedFrom(es, d, n, es', m, j, c);
      var j' :| Lists(es, m, j', c);
    }
  }

  lemma {:induction false} RemovedFrom(es: seq<Entry>, d: nat, n: nat, es': seq<Entry>, m: nat, j: nat, c: nat)
    requires Listing(es', m) == if m == d then Without(Listing(es, d), n) else Listing(es, m)
    requires Lists(es', m, j, c)
    ensures exists j' :: Lists(es, m, j', c)
    ensures m == d ==> c != n
  {
    var ds := Listing(es', m);
    WithoutIn(Listing(es, m), n, ds[j]);
    assert ds[j] in ds && ds[j] in Listing(es, m);
    var j' :| 0 <= j' < |Listing(es, m)| && Listing(es, m)[j'] == ds[j];
    assert Lists(es, m, j', c);
  }

  lemma {:induction false} RemovedOnce(es: seq<Entry>, d: nat, n: nat, es': seq<Entry>, m: nat, j: nat, m': nat,
                                       j': nat, c: nat)
    requires ListsOnce(es)
    requires forall q :: Listing(es', q) == if q == d then Without(Listing(es, d), n) else Listing(es, q)
    requires Lists(es', m, j, c) && Lists(es', m', j', c)
    ensures m == m' && j == j'
  {
    RemovedFrom(es, d, n, es', m, j, c);
    RemovedFrom(es, d, n, es', m', j', c);
    var i :| Lists(es, m, i, c);
    var i' :| Lists(es, m', i', c);
    if m == d {
      WithoutOnce(es, d, n, j, j', c);
    } else {
      assert Lists(es, m, j, c) && Lists(es, m, j', c);
    }
  }

  lemma {:induction false} WithoutOnce(es: seq<Entry>, d: nat, n: nat, j: nat, j': nat, c: nat)
    requires ListsOnce(es)
    requires var r := Without(Listing(es, d), n); j < |r| && j' < |r| && r[j].number == c && r[j'].number == c
    ensures j == j'
  {
    var ds := Listing(es, d);
    WithoutFrom(ds, n, j, j');
    var a, b :| 0 <= a < |ds| && 0 <= b < |ds| && ds[a] == Without(ds, n)[j]
                && ds[b] == Without(ds, n)[j'] && (a == b ==> j == j');
    assert Lists(es, d, a, c) && Lists(es, d, b, c);
  }

  lemma {:induction false} RemovedKept(es: seq<Entry>, d: nat, n: nat, es': seq<Entry>, e: Entry, k: nat)
    requires EntriesOk(es) && es' == Deleted(es, n) + [e] && Live(e, d) && d != n && EntryOk(e) && IsDir(e) && k < |es'|
    requires Current(es, n) >= 0 && !IsDir(es[Current(es, n)]) && Current(es, d) >= 0 && IsDir(es[Current(es, d)])
    requires Dentries(e.data) == Without(Listing(es, d), n)
    requires forall m :: Current(es', m) == if m == d then |es| else if m == n then -1 else Current(es, m)
    requires forall m :: Listing(es', m) == if m == d then Without(Listing(es, d), n) else Listing(es, m)
    ensures EntryOk(es'[k]) && Kept(es', k)
  {
    var k0 := if k < |es| then k else Current(es, d);
    assert EntryOk(es[k0]) && Kept(es, k0);
    UsedDeleted(es, n, e);
    forall f: Dentry
      ensures f in Without(Listing(es, d), n) <==> f in Listing(es, d) && f.number != n
    {
      WithoutIn(Listing(es, d), n, f);
    }
    if k < |es| {
      assert Deletes(es[k], n, es'[k]);
    }
  }

  lemma UsedDeleted(es: seq<Entry>, n: nat, e: Entry)
    ensures forall m | Used(es, m) :: Used(Deleted(es, n) + [e], m)
  {
    forall m | Used(es, m)
      ensures Used(Deleted(es, n) + [e], m)
    {
      var k :| 0 <= k < |es| && es[k].inode.number == m;
      assert Deletes(es[k], n, (Deleted(es, n) + [e])[k]);
    }
  }

  // ---------------------------------------------------------------- after create and before unlink

  /** A directory that lists a live inode once, lists one inode less without it. */
  lemma {:induction false} WithoutLength(ds: seq<Dentry>, n: nat)
    requires exists i | 0 <= i < |ds| :: ds[i].number == n
    requires forall i, j | 0 <= i < j < |ds| :: ds[i].number != n || ds[j].number != n
    ensures |Without(ds, n)| == |ds| - 1
  {
    var last := |ds| - 1;
    if ds[last].number == n {
      WithoutAll(ds[..last], n);
    } else {
      var i :| 0 <= i < |ds| && ds[i].number == n;
      assert ds[..last][i].number == n;
      WithoutLength(ds[..last], n);
    }
  }

  lemma {:induction false} WithoutAll(ds: seq<Dentry>, n: nat)
    requires forall i | 0 <= i < |ds| :: ds[i].number != n
    ensures Without(ds, n) == ds
  {
    if ds != [] {
      WithoutAll(ds[..|ds| - 1], n);
      assert ds == ds[..|ds| - 1] + [ds[|ds| - 1]];
    }
  }

  /** What unlink relies on: the directory lists the file exactly once. */
  ghost predicate ListedOnce(es: seq<Entry>, d: nat, n: nat) {
    && (exists i :: Lists(es, d, i, n))
    && forall i, j | Lists(es, d, i, n) && Lists(es, d, j, n) :: i == j
  }

  /** The parent that the path resolves to lists what the path resolves to, exactly once. */
  lemma {:induction false} ResolvedListed(es: seq<Entry>, root: nat, dir: seq<seq<Byte>>, name: seq<Byte>)
    requires TreeOk(es) && Resolve(es, root, dir + [name]) >= 0
    ensures var p := Resolve(es, root, dir);
            && p >= 0 && IsDir(es[p])
            && ListedOnce(es, es[p].inode.number, es[Resolve(es, root, dir + [name])].inode.number)
    decreases |dir|
  {
    var l := Current(es, root);
    if dir == [] {
      assert ([] + [name])[1..] == [];
      ListedIsCurrent(es, l, name);
      var i: nat :| ListedAt(es, es[l].inode.number, i, name, Child(es, es[l], name));
      assert Lists(es, es[l].inode.number, i, es[Resolve(es, root, dir + [name])].inode.number);
    } else {
      assert (dir + [name])[1..] == dir[1..] + [name];
      ResolvedListed(es, Child(es, es[l], dir[0]), dir[1..], name);
    }
  }

  lemma LastMatch(es: seq<Entry>, ds: seq<Dentry>, last: Dentry, tok: seq<Byte>)
    requires forall i | 0 <= i < |ds| :: !Names(es, ds[i], tok)
    ensures FirstMatch(es, ds + [last], tok, 0) == if Names(es, last, tok) then |ds| else -1
  {
    var i := FirstMatch(es, ds + [last], tok, 0);
    assert (ds + [last])[|ds|] == last;
    assert forall j | 0 <= j < |ds| :: (ds + [last])[j] == ds[j];
  }

  lemma {:induction false} ChildCreated(es: seq<Entry>, e: Entry, ds: seq<Dentry>, name: seq<Byte>, num: nat)
    requires 0 !in name && num < UINT && Current(es, num) >= 0 && IsDir(e)
    requires Dentries(e.data) == ds + [Dentry(FileName(name), num)]
    requires forall i | 0 <= i < |ds| :: !Names(es, ds[i], name)
    ensures Child(es, e, name) == if |name| < NAME then num else -1
  {
    var last := Dentry(FileName(name), num);
    NameKept(name);
    LastMatch(es, ds, last, name);
    assert (ds + [last])[|ds|] == last;
  }

  lemma {:induction false} ResolveOne(es: seq<Entry>, n: nat, name: seq<Byte>)
    requires Current(es, n) >= 0
    ensures var c := Child(es, es[Current(es, n)], name);
            Resolve(es, n, [name]) == if c == -1 then -1 else Current(es, c)
  {
    assert [name][1..] == [];
  }

  /** A name just created in a directory that did not list it live is found there if and only if it
      has at most 31 bytes. */
  lemma {:induction false} CreatedFound(es: seq<Entry>, es': seq<Entry>, d: nat, name: seq<Byte>, num: nat)
    requires 0 !in name && num < UINT && Current(es', num) >= 0
    requires Listing(es', d) == Listing(es, d) + [Dentry(FileName(name), num)] && Listing(es', d) != []
    requires forall i | 0 <= i < |Listing(es, d)| :: !Names(es', Listing(es, d)[i], name)
    ensures Resolve(es', d, [name]) == (if |name| < NAME then Current(es', num) else -1)
  {
    ChildCreated(es', es'[Current(es', d)], Listing(es, d), name, num);
    ResolveOne(es', d, name);
  }

  // ---------------------------------------------------------------- what the lookups mean

  /** A C string is what stands before its first zero. */
  lemma {:induction false} CStrIs(s: seq<Byte>)
    ensures CStr(s) <= s && 0 !in CStr(s) && (|CStr(s)| < |s| ==> s[|CStr(s)|] == 0)
  {
    if s != [] && s[0] != 0 {
      CStrIs(s[1..]);
    }
  }

  /** Some entry of inode n is not marked deleted. */
  predicate HasLive(es: seq<Entry>, n: nat) {
    exists k | 0 <= k < |es| :: es[k].inode.number == n && es[k].inode.deleted == 0
  }

  lemma {:induction false} CurrentLive(es: seq<Entry>, n: nat)
    ensures Current(es, n) >= 0 <==> HasLive(es, n)
  {
    LatestIs(es, n, |es|);
    if HasLive(es, n) {
      var k :| 0 <= k < |es| && es[k].inode.number == n && es[k].inode.deleted == 0;
      assert Live(es[k], n);
    }
  }

  /** A directory's entry that counts for a name: it has the name, and its inode is alive. */
  predicate Counts(es: seq<Entry>, d: Dentry, tok: seq<Byte>) {
    CStr(d.name) == tok && HasLive(es, d.number % UINT)
  }

  /** Slot i is the first that counts, and lists inode c. */
  predicate FirstCounts(es: seq<Entry>, ds: seq<Dentry>, tok: seq<Byte>, i: nat, c: int) {
    && i < |ds| && Counts(es, ds[i], tok) && ds[i].number % UINT == c
    && forall j | 0 <= j < i :: !Counts(es, ds[j], tok)
  }

  lemma {:induction false} NamesCounts(es: seq<Entry>, ds: seq<Dentry>, tok: seq<Byte>)
    ensures forall j | 0 <= j < |ds| :: Names(es, ds[j], tok) <==> Counts(es, ds[j], tok)
  {
    forall j | 0 <= j < |ds|
      ensures Names(es, ds[j], tok) <==> Counts(es, ds[j], tok)
    {
      CurrentLive(es, ds[j].number % UINT);
    }
  }

  lemma {:induction false} MatchIs(es: seq<Entry>, ds: seq<Dentry>, tok: seq<Byte>, i: nat, c: int)
    requires FirstCounts(es, ds, tok, i, c)
    ensures FirstMatch(es, ds, tok, 0) == i
  {
    NamesCounts(es, ds, tok);
  }

  /** The scan of one directory finds the first entry with the name and a live inode. */
  lemma {:induction false} ChildIs(es: seq<Entry>, e: Entry, tok: seq<Byte>, c: nat)
    ensures Child(es, e, tok) == c <==>
              e.inode.mode / 0x1000 % 0x10 == 4 && exists i :: FirstCounts(es, Dentries(e.data), tok, i, c)
  {
    var ds := Dentries(e.data);
    if i :| FirstCounts(es, ds, tok, i, c) {
      MatchIs(es, ds, tok, i, c);
    }
    if Child(es, e, tok) == c {
      NamesCounts(es, ds, tok);
      assert FirstCounts(es, ds, tok, FirstMatch(es, ds, tok, 0), c);
    }
  }

  // ---------------------------------------------------------------- after a write

  lemma {:induction false} FirstMatchSame(es: seq<Entry>, es': seq<Entry>, ds: seq<Dentry>, tok: seq<Byte>, i: nat)
    requires i <= |ds| && forall m: nat :: Current(es', m) >= 0 <==> Current(es, m) >= 0
    ensures FirstMatch(es', ds, tok, i) == FirstMatch(es, ds, tok, i)
    decreases |ds| - i
  {
    if i < |ds| {
      FirstMatchSame(es, es', ds, tok, i + 1);
    }
  }

  /** A path that leads to the file before, does so after a write to it. */
  lemma {:induction false} ResolveWritten(es: seq<Entry>, es': seq<Entry>, x: nat, toks: seq<seq<Byte>>, n: nat)
    requires Current(es, n) >= 0 && !IsDir(es[Current(es, n)]) && Resolve(es, x, toks) == Current(es, n)
    requires SameExcept(es, es', {n}) && forall m: nat :: Current(es', m) >= 0 <==> Current(es, m) >= 0
    ensures Resolve(es', x, toks) == Current(es', n)
    decreases |toks|
  {
    if toks != [] {
      var l := Current(es, x);
      assert x != n && SameCurrent(es, es', x);
      FirstMatchSame(es, es', Dentries(es[l].data), toks[0], 0);
      ResolveWritten(es, es', Child(es, es[l], toks[0]), toks[1..], n);
    } else {
      assert Live(es[Current(es, x)], x) && Live(es[Current(es, n)], n);
    }
  }

  /** Read after write: in a tree without names of two files, the path to the file that was written finds the
      data written, after the write. */
  lemma {:induction false} WrittenFound(es: seq<Entry>, root: nat, toks: seq<seq<Byte>>, data: seq<Byte>,
                                        es': seq<Entry>)
    requires es != [] && TreeOk(es) && UniqueNames(es) && es[0].inode.number == root
    requires Resolve(es, root, toks) >= 0 && !IsDir(es[Resolve(es, root, toks)])
    requires Wrote(es, es[Resolve(es, root, toks)].inode.number, data, es')
    ensures es' != [] && Lookup(es, toks) == Resolve(es, root, toks)
    ensures Lookup(es', toks) == Resolve(es', root, toks) >= 0 && es'[Lookup(es', toks)].data == data
  {
    var n := es[Resolve(es, root, toks)].inode.number;
    WroteEffect(es, n, data, es');
    var e :| WroteBy(es, n, data, es', e);
    forall m: nat
      ensures Current(es', m) >= 0 <==> Current(es, m) >= 0
      ensures Listing(es', m) == Listing(es, m)
    {
      CurrentAdded(es, e, m);
    }
    ResolveWritten(es, es', root, toks, n);
    forall m, i, m', i', tok | NamedAt(es', m, i, tok) && NamedAt(es', m', i', tok)
      ensures m == m' && i == i'
    {
      assert NamedAt(es, m, i, tok) && NamedAt(es, m', i', tok);
    }
    LookupInTree(es, root, toks);
    LookupInTree(es', root, toks);
  }
}
