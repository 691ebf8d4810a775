/** The operations of mount.wfs.c on the mapped image. */
module Wfs {
  import opened Common
  import opened WfsLog
  import opened WfsImage
  import opened WfsPath

  const ENOENT: int := 2
  const EEXIST: int := 17
  const EISDIR: int := 21
  const ENOSPC: int := 28

  /** What getuid, getgid and time return during an operation. */
  datatype Meta = Meta(uid: Uint, gid: Uint, atime: Uint, mtime: Uint, ctime: Uint)

  function NewInode(number: Uint, mode: Uint, size: Uint, m: Meta): Inode {
    Inode(number, 0, mode, m.uid, m.gid, 0, size, m.atime, m.mtime, m.ctime, 1)
  }

  /** What every new inode has: it is not deleted, it is its creator's and of the time of the call. */
  predicate Stamped(i: Inode, m: Meta) {
    && i.deleted == 0 && i.uid == m.uid && i.gid == m.gid && i.flags == 0
    && i.atime == m.atime && i.mtime == m.mtime && i.ctime == m.ctime && i.links == 1
  }

  // ---------------------------------------------------------------- lookup

  /** strcmp(name, token) == 0 for the name field at off. */
  method SameName(img: Image, off: nat, token: seq<Byte>) returns (same: bool)
    requires off + NAME <= img.data.Length && 0 in img.data[off..off + NAME] && 0 !in token
    ensures same <==> CStr(img.data[off..off + NAME]) == token
  {
    ghost var name := img.data[off..off + NAME];
    var i := 0;
    while i < |token| && i < NAME && img.data[off + i] == token[i]
      invariant 0 <= i <= NAME && i <= |token| && name[..i] == token[..i]
    {
      assert name[i] == token[i];
      i := i + 1;
    }
    ghost var z :| 0 <= z < NAME && name[z] == 0;
    assert forall l | 0 <= l < i :: name[l] == name[..i][l] == token[..i][l] != 0;
    same := i == |token| && img.data[off + i] == 0;
    CStrCompared(name, token, i);
  }

  lemma {:induction false} CStrCompared(name: seq<Byte>, token: seq<Byte>, i: nat)
    requires i <= |token| && i < |name| && name[..i] == token[..i] && 0 !in token
    requires i < |token| ==> name[i] != token[i]
    ensures CStr(name) == token <==> i == |token| && name[i] == 0
  {
    if i > 0 {
      assert name[0] == name[..i][0] == token[..i][0] == token[0];
      assert name[1..][..i - 1] == name[..i][1..] && token[1..][..i - 1] == token[..i][1..];
      CStrCompared(name[1..], token[1..], i - 1);
      assert token == [token[0]] + token[1..];
    }
  }

  /** What a directory entry's i-th slot holds on the disk. */
  lemma SlotAt(d: seq<Byte>, off: nat, e: Entry, i: nat)
    requires EntryAt(d, off, e) && i < |e.data| / DENTRY
    ensures var o := off + INODE + DENTRY * i;
            && o + DENTRY <= off + Size(e) <= |d|
            && d[o..o + DENTRY] == e.data[DENTRY * i..DENTRY * (i + 1)]
            && d[o..o + NAME] == Dentries(e.data)[i].name
            && Word4(d, o + NAME) + UINT * Word4(d, o + NAME + 4) == Dentries(e.data)[i].number
  {
    var o := off + INODE + DENTRY * i;
    DentriesAt(e.data, |e.data| / DENTRY, i);
    DataAt(d, off, e, DENTRY * i, DENTRY * (i + 1));
    SubSlice(d, o, DENTRY, 0, NAME);
    WordIn(d, o, DENTRY, NAME);
    WordIn(d, o, DENTRY, NAME + 4);
  }

  lemma WordIn(d: seq<Byte>, off: nat, n: nat, i: nat)
    requires off + n <= |d| && i + 4 <= n
    ensures Word4(d, off + i) == Word4(d[off..off + n], i)
  {
    SubSlice(d, off, n, i, i + 4);
  }

  /** The slot at o holds x's name and the low word of its number. */
  predicate Shows(d: seq<Byte>, o: nat, x: Dentry) {
    o + DENTRY <= |d| && d[o..o + NAME] == x.name && Word4(d, o + NAME) == x.number % UINT
  }

  lemma SlotInImage(d: seq<Byte>, es: seq<Entry>, k: nat, i: nat, o: nat)
    requires Rep(d, es) && k < |es| && IsDir(es[k]) && i < |Dentries(es[k].data)|
    requires o == Start(es, k) + INODE + DENTRY * i
    ensures Shows(d, o, Dentries(es[k].data)[i]) && 0 in Dentries(es[k].data)[i].name
  {
    EntryIn(d, es, k);
    DirSlot(es[k], i);
    SlotInEntry(d, Start(es, k), es[k], i, o);
  }

  lemma SlotInEntry(d: seq<Byte>, off: nat, e: Entry, i: nat, o: nat)
    requires EntryAt(d, off, e) && i < |Dentries(e.data)| && o == off + INODE + DENTRY * i
    ensures Shows(d, o, Dentries(e.data)[i])
  {
    SlotAt(d, off, e, i);
    LowWord(Word4(d, o + NAME), Word4(d, o + NAME + 4));
  }

  lemma LowWord(low: Uint, high: Uint)
    ensures (low + UINT * high) % UINT == low
  {
  }

  lemma DirSlot(e: Entry, i: nat)
    requires EntryOk(e) && IsDir(e) && i < |Dentries(e.data)|
    ensures DentryOk(Dentries(e.data)[i])
  {
    assert Dentries(e.data)[i] in Dentries(e.data);
  }

  /** One turn of the loop below. */
  method TrySlot(img: Image, off: nat, ghost k: nat, i: nat, token: seq<Byte>) returns (temp: int)
    requires img.Valid() && k < |img.es| && off == Start(img.es, k) && IsDir(img.es[k]) && 0 !in token
    requires i < |Dentries(img.es[k].data)|
    ensures var d := Dentries(img.es[k].data)[i];
            temp == if Names(img.es, d, token) then At(img.es, Current(img.es, d.number % UINT)) else -1
  {
    var o := off + INODE + DENTRY * i;
    SlotInImage(img.data[..], img.es, k, i, o);
    assert img.data[o..o + NAME] == img.data[..][o..o + NAME];
    temp := -1;
    var same := SameName(img, o, token);
    if same {
      var number := img.GetWord(o + NAME);
      temp := img.FindLatest(number);
    }
  }

  /** The dentry loop of find_log_entry_by_path: the latest entry of the first live inode that
      directory entry k lists under token, or -1. */
  method FindChild(img: Image, off: nat, ghost k: nat, size: nat, token: seq<Byte>) returns (temp: int)
    requires img.Valid() && k < |img.es| && off == Start(img.es, k) && IsDir(img.es[k]) && 0 !in token
    requires size == |img.es[k].data|
    ensures var c := Child(img.es, img.es[k], token);
            temp == if c == -1 then -1 else At(img.es, Current(img.es, c))
  {
    ghost var ds := Dentries(img.es[k].data);
    var i := 0;
    temp := -1;
    while i < size / DENTRY && temp == -1
      invariant 0 <= i <= |ds| && FirstMatch(img.es, ds, token, 0)
                  == if temp == -1 then FirstMatch(img.es, ds, token, i) else i - 1
      invariant temp != -1 ==> i > 0 && temp == At(img.es, Current(img.es, ds[i - 1].number % UINT))
      decreases size / DENTRY - i
    {
      temp := TrySlot(img, off, k, i, token);
      i := i + 1;
    }
  }

  /** What the walk does at one entry, that at off; next is the offset of the entry after it. */
  method TryEntry(img: Image, off: nat, ghost k: nat, token: seq<Byte>) returns (temp: int, next: nat)
    requires img.Valid() && k < |img.es| && off == Start(img.es, k) && 0 !in token
    ensures var c := Child(img.es, img.es[k], token);
            temp == if c == -1 then -1 else At(img.es, Current(img.es, c))
    ensures next == Start(img.es, k + 1)
  {
    var _, _, mode, size := img.Header(off, k);
    temp, next := -1, off + INODE + size;
    if mode / 0x1000 % 0x10 == 4 {
      temp := FindChild(img, off, k, size, token);
    }
  }

  lemma ScanTurn(es: seq<Entry>, k: nat, token: seq<Byte>, rest: seq<seq<Byte>>)
    requires k < |es|
    ensures var c := Child(es, es[k], token);
            Scan(es, k, [token] + rest)
            == if c == -1 then Scan(es, k + 1, [token] + rest)
               else if rest == [] then Current(es, c) else Scan(es, Current(es, c), rest)
  {
    assert ([token] + rest)[1..] == rest;
  }

  /** find_log_entry_by_path. */
  method FindByPath(img: Image, path: seq<Byte>) returns (found: int)
    requires img.Valid() && CPath(path)
    ensures found == At(img.es, Lookup(img.es, Tokens(path)))
  {
    ghost var es := img.es;
    var ok, token, rest := Strtok(path);
    AtEnd(es, 0);
    if !ok {
      var number, _, _, _ := img.Header(SB, 0);
      found := img.FindLatest(number);
      return;
    }
    var head := img.GetWord(4);
    var off, entry := SB, -1;
    ghost var k: nat, j: int := 0, -1;
    while ok && off < head
      invariant k <= |es| && off == Start(es, k) && 0 !in token && 0 !in rest
      invariant -1 <= j < |es| && entry == At(es, j)
      invariant Lookup(es, Tokens(path)) == if ok then Scan(es, k, [token] + Tokens(rest)) else j
      decreases if ok then 1 + |Tokens(rest)| else 0, |es| - k
    {
      AtEnd(es, k);
      var temp, next := TryEntry(img, off, k, token);
      ScanTurn(es, k, token, Tokens(rest));
      if temp != -1 {
        entry, off := temp, temp;
        j := Current(es, Child(es, es[k], token));
        k := j;
        ok, token, rest := Strtok(rest);
      } else {
        off, k := next, k + 1;
      }
    }
    AtEnd(es, k);
    found := if !ok then entry else -1;
  }

  // ---------------------------------------------------------------- read

  /** wfs_read of up to size bytes at off; the result is minus the error number, or what the buffer
      receives. */
  method Read(img: Image, path: seq<Byte>, size: nat, off: nat) returns (r: int, buffer: seq<Byte>)
    requires img.Valid() && CPath(path)
    ensures var l := Lookup(img.es, Tokens(path));
            if l == -1 then r == -ENOENT && buffer == []
            else var c := img.es[l].data;
                 r == |buffer| && buffer
                   == if off >= |c| then [] else c[off..if size > |c| - off then |c| else off + size]
  {
    var entry := FindByPath(img, path);
    if entry == -1 {
      return -ENOENT, [];
    }
    ghost var l := Lookup(img.es, Tokens(path));
    var _, _, _, n := img.Header(entry, l);
    if off >= n {
      return 0, [];
    }
    var count := if size > n - off then n - off else size;
    DataAt(img.data[..], entry, img.es[l], off, off + count);
    buffer := img.data[entry + INODE + off..entry + INODE + off + count];
    r := count;
  }

  // ---------------------------------------------------------------- write

  /** What a write makes of the contents c: src at off, and where neither reaches, what lay on the
      disk behind the log. */
  function Spliced(c: seq<Byte>, off: nat, src: seq<Byte>, under: seq<Byte>): (r: seq<Byte>)
    requires |under| == (if off + |src| > |c| then off + |src| else |c|)
    ensures |r| == |under|
  {
    seq(|under|, j requires 0 <= j < |under| =>
      if off <= j < off + |src| then src[j - off] else if j < |c| then c[j] else under[j])
  }

  /** d is c with src from off on, and longer than c only as far as src reaches. */
  ghost predicate Replaced(c: seq<Byte>, off: nat, src: seq<Byte>, d: seq<Byte>) {
    && |d| == (if off + |src| > |c| then off + |src| else |c|)
    && d[off..off + |src|] == src
    && forall j | 0 <= j < |c| && !(off <= j < off + |src|) :: d[j] == c[j]
  }

  lemma SplicedParts(c: seq<Byte>, off: nat, src: seq<Byte>, under: seq<Byte>)
    requires |under| == (if off + |src| > |c| then off + |src| else |c|)
    ensures Replaced(c, off, src, Spliced(c, off, src, under))
  {
    assert Spliced(c, off, src, under)[off..off + |src|] == src;
  }

  /** On a disk that holds zeros behind the log a write replaces the bytes from off on, and a gap
      before off reads as zeros. */
  lemma GapReadsZero(c: seq<Byte>, off: nat, src: seq<Byte>, under: seq<Byte>)
    requires |under| == (if off + |src| > |c| then off + |src| else |c|)
    requires forall j | 0 <= j < |under| :: under[j] == 0
    ensures Spliced(c, off, src, under) ==
            (if off <= |c| then c[..off] else c + seq(off - |c|, _ => 0)) + src
            + (if off + |src| < |c| then c[off + |src|..] else [])
  {
  }

  /** No such file, no room, or one more entry whose data is the file's with the buffer spliced in;
      d0 is the image before. */
  ghost predicate Written(es: seq<Entry>, d0: seq<Byte>, path: seq<Byte>, buffer: seq<Byte>, off: nat, r: int,
                          es': seq<Entry>)
    requires es != []
  {
    var l := Lookup(es, Tokens(path));
    if l == -1 then r == -ENOENT && es' == es
    else
      var c, head := es[l].data, End(es);
      var size := if off + |buffer| > |c| then off + |buffer| else |c|;
      if head + INODE + size > |d0| then r == -ENOSPC && es' == es
      else && r == |buffer|
           && Wrote(es, es[l].inode.number, Spliced(c, off, buffer, d0[head + INODE..head + INODE + size]), es')
  }

  /** wfs_write. The kernel opens no directory for writing, and passes offsets that fit an int. */
  method Write(img: Image, path: seq<Byte>, buffer: seq<Byte>, off: nat, m: Meta) returns (r: int)
    requires img.Valid() && CPath(path) && off + |buffer| < INT
    requires var l := Lookup(img.es, Tokens(path)); l >= 0 ==> !IsDir(img.es[l])
    modifies img`es, img.data
    ensures img.Valid()
    ensures Behind(old(img.data[..]), img.data[..], End(img.es))
    ensures Written(old(img.es), old(img.data[..]), path, buffer, off, r, img.es)
    ensures r >= 0 ==> r == |buffer| && old(Lookup(img.es, Tokens(path))) >= 0 && |img.es| == |old(img.es)| + 1
    ensures r >= 0 ==> img.es[|old(img.es)|].inode.mode == 0x8000 && Stamped(img.es[|old(img.es)|].inode, m)
    ensures r >= 0 ==>
              var c, d := old(img.es)[old(Lookup(img.es, Tokens(path)))].data, img.es[|old(img.es)|].data;
              && |d| == (if off + |buffer| > |c| then off + |buffer| else |c|)
              && d[off..off + |buffer|] == buffer
              && forall j | 0 <= j < |c| && !(off <= j < off + |buffer|) :: d[j] == c[j]
  {
    var entry := FindByPath(img, path);
    if entry == -1 {
      return -ENOENT;
    }
    ghost var l := Lookup(img.es, Tokens(path));
    var number, _, _, n := img.Header(entry, l);
    var size := if off + |buffer| > n then off + |buffer| else n;
    var head := img.GetWord(4);
    if head + INODE + size > img.data.Length {
      return -ENOSPC;
    }
    EntryIn(img.data[..], img.es, l);
    AppendWritten(img, entry, l, NewInode(number, S_IFREG, size, m), n, head, off, buffer);
    r := |buffer|;
  }

  lemma RegularOk(e: Entry)
    requires e.inode.mode == S_IFREG && e.inode.size == |e.data| && e.inode.number < INT
    ensures EntryOk(e) && !IsDir(e)
  {
  }

  /** The new entry of the file at entry l, of which n bytes are data, with buffer at off. */
  method AppendWritten(img: Image, entry: nat, ghost l: nat, inode: Inode, n: nat, head: nat, off: nat,
                       buffer: seq<Byte>)
    requires img.Valid() && l < |img.es| && entry == Start(img.es, l) && n == |img.es[l].data| && head == End(img.es)
    requires inode.number == img.es[l].inode.number < INT && inode.deleted == 0 && inode.mode == S_IFREG
    requires inode.size == (if off + |buffer| > n then off + |buffer| else n)
             && head + INODE + inode.size <= img.data.Length
    modifies img`es, img.data
    ensures img.Valid()
    ensures Behind(old(img.data[..]), img.data[..], End(img.es))
    ensures Wrote(old(img.es), inode.number,
                  Spliced(old(img.es)[l].data, off, buffer, old(img.data[head + INODE..head + INODE + inode.size])),
                    img.es)
    ensures |img.es| == |old(img.es)| + 1 && img.es[|old(img.es)|].inode == inode
    ensures Replaced(old(img.es)[l].data, off, buffer, img.es[|old(img.es)|].data)
  {
    ghost var es, d0, c := img.es, img.data[..], img.es[l].data;
    ghost var e := Entry(inode, Spliced(c, off, buffer, d0[head + INODE..head + INODE + inode.size]));
    assert d0[head + INODE..head + INODE + inode.size] == img.data[head + INODE..head + INODE + inode.size];
    RegularOk(e);
    EntryIn(d0, es, l);
    PutWritten(img, entry, es[l], n, head, off, buffer, inode, e);
    img.Advance(d0, e, inode.size, End(img.es) + Size(e));
    assert WroteBy(es, inode.number, e.data, img.es, e);
    SplicedParts(c, off, buffer, d0[head + INODE..head + INODE + inode.size]);
  }

  /** Its bytes, behind the log. */
  method PutWritten(img: Image, entry: nat, ghost f: Entry, n: nat, head: nat, off: nat, buffer: seq<Byte>,
                    inode: Inode, ghost e: Entry)
    requires EntryAt(img.data[..], entry, f) && n == |f.data| && entry + Size(f) <= head
    requires e.inode == inode && inode.size == |e.data| == if off + |buffer| > n then off + |buffer| else n
    requires head + Size(e) <= img.data.Length
    requires e.data == Spliced(f.data, off, buffer, img.data[..][head + INODE..head + Size(e)])
    modifies img.data
    ensures Outside(old(img.data[..]), img.data[..], head, head + Size(e)) && EntryAt(img.data[..], head, e)
  {
    ghost var d0, c := img.data[..], f.data;
    img.PutInode(head, inode);
    ghost var d1 := img.data[..];
    assert d1[head..head + INODE] == WordsBytes(Fields(inode));
    DataKept(d0, d1, entry, f, head, head + INODE);
    img.Memcpy(head + INODE, entry + INODE, n);
    ghost var d2 := img.data[..];
    assert d2[head + INODE..head + INODE + n] == c;
    img.Put(head + INODE + off, buffer);
    assert img.data[..][head + INODE + off..head + INODE + off + |buffer|] == buffer;
    WrittenBytes(d0, d1, d2, img.data[..], head, c, off, buffer, e);
  }

  /** The bytes behind the log after the three stages of a write. */
  lemma WrittenBytes(d0: seq<Byte>, d1: seq<Byte>, d2: seq<Byte>, d3: seq<Byte>, head: nat, c: seq<Byte>, off: nat,
                     src: seq<Byte>, e: Entry)
    requires head + Size(e) <= |d0| && e.inode.size == |e.data| == if off + |src| > |c| then off + |src| else |c|
    requires Outside(d0, d1, head, head + INODE) && d1[head..head + INODE] == WordsBytes(Fields(e.inode))
    requires Outside(d1, d2, head + INODE, head + INODE + |c|) && d2[head + INODE..head + INODE + |c|] == c
    requires Outside(d2, d3, head + INODE + off, head + INODE + off + |src|)
    requires d3[head + INODE + off..head + INODE + off + |src|] == src
    requires e.data == Spliced(c, off, src, d0[head + INODE..head + Size(e)])
    ensures Outside(d0, d3, head, head + Size(e)) && EntryAt(d3, head, e)
  {
    var o, n := head + INODE, |src|;
    SliceSame(d1, d2, o, o + |c|, head, o);
    SliceSame(d2, d3, o + off, o + off + n, head, o);
    OutsideTwice(d0, d1, d2, head, o, o, o + |c|, head, head + Size(e));
    OutsideTwice(d0, d2, d3, head, head + Size(e), o + off, o + off + n, head, head + Size(e));
    SplicedBytes(d0, d1, d2, d3, head, c, off, src, e.data);
    Cut(d3, head, INODE, Size(e));
  }

  lemma SplicedBytes(d0: seq<Byte>, d1: seq<Byte>, d2: seq<Byte>, d3: seq<Byte>, head: nat, c: seq<Byte>, off: nat,
                     src: seq<Byte>, data: seq<Byte>)
    requires head + INODE + |data| <= |d0| && |data| == if off + |src| > |c| then off + |src| else |c|
    requires Outside(d0, d1, head, head + INODE)
    requires Outside(d1, d2, head + INODE, head + INODE + |c|) && d2[head + INODE..head + INODE + |c|] == c
    requires Outside(d2, d3, head + INODE + off, head + INODE + off + |src|)
    requires d3[head + INODE + off..head + INODE + off + |src|] == src
    requires data == Spliced(c, off, src, d0[head + INODE..head + INODE + |data|])
    ensures d3[head + INODE..head + INODE + |data|] == data
  {
    var o, n := head + INODE, |src|;
    forall j | 0 <= j < |data|
      ensures d3[o + j] == data[j]
    {
      if off <= j < off + n {
        assert d3[o + j] == d3[o + off..o + off + n][j - off];
      } else {
        assert SameAt(d2, d3, o + j) && SameAt(d0, d1, o + j);
        if j < |c| {
          assert d2[o + j] == d2[o..o + |c|][j];
        } else {
          assert SameAt(d1, d2, o + j) && d0[o + j] == d0[o..o + |data|][j];
        }
      }
    }
  }

  // ---------------------------------------------------------------- create

  /** The new version of a directory: its latest one with one more dentry. */
  function WithDentry(e: Entry, d: Dentry): Entry
    requires |d.name| == NAME && d.number < UINT && |e.data| + DENTRY < UINT
  {
    Entry(e.inode.(size := |e.data| + DENTRY), e.data + DentryBytes(d))
  }

  lemma WithDentryOk(e: Entry, d: Dentry)
    requires EntryOk(e) && IsDir(e) && DentryOk(d) && |e.data| + DENTRY < UINT
    ensures EntryOk(WithDentry(e, d)) && Dentries(WithDentry(e, d).data) == Dentries(e.data) + [d]
  {
    DentryAdded(e.data, d);
    forall x | x in Dentries(e.data) + [d]
      ensures DentryOk(x)
    {
      assert x in Dentries(e.data) || x == d;
    }
  }

  /** The bytes behind the log after a copy of e, a new dentry and a new size. */
  lemma CopyBytes(d0: seq<Byte>, d1: seq<Byte>, d2: seq<Byte>, d3: seq<Byte>, head: nat, e: Entry, d: Dentry)
    requires |d.name| == NAME && d.number < UINT && |e.data| + DENTRY < UINT && head + Size(e) + DENTRY <= |d0|
    requires Outside(d0, d1, head, head + Size(e)) && d1[head..head + Size(e)] == EntryBytes(e)
    requires Outside(d1, d2, head + Size(e), head + Size(e) + DENTRY)
    requires d2[head + Size(e)..head + Size(e) + DENTRY] == DentryBytes(d)
    requires Outside(d2, d3, head + SIZE, head + SIZE + 4) && Word4(d3, head + SIZE) == |e.data| + DENTRY
    ensures Outside(d0, d3, head, head + Size(WithDentry(e, d))) && EntryAt(d3, head, WithDentry(e, d))
  {
    var n, b := Size(e), EntryBytes(e);
    SliceSame(d1, d2, head + n, head + n + DENTRY, head, head + n);
    SliceSame(d2, d3, head + SIZE, head + SIZE + 4, head + n, head + n + DENTRY);
    ResizedBytes(d2, d3, head, e, |e.data| + DENTRY);
    CopyOutside(d0, d1, d2, d3, head, head + n, head + n + DENTRY, head + SIZE, head + SIZE + 4);
    Glue(d3, head, 0, n, n + DENTRY);
    var w := WordsBytes(Fields(WithDentry(e, d).inode));
    assert (w + e.data) + DentryBytes(d) == w + (e.data + DentryBytes(d));
  }

  lemma CopyOutside(d0: seq<Byte>, d1: seq<Byte>, d2: seq<Byte>, d3: seq<Byte>, lo: nat, mid: nat, hi: nat, f: nat,
                    g: nat)
    requires lo <= mid <= hi <= |d0| && lo <= f <= g <= hi
    requires Outside(d0, d1, lo, mid) && Outside(d1, d2, mid, hi) && Outside(d2, d3, f, g)
    ensures Outside(d0, d3, lo, hi)
  {
    OutsideTwice(d0, d1, d2, lo, mid, mid, hi, lo, hi);
    OutsideTwice(d0, d2, d3, lo, hi, f, g, lo, hi);
  }

  /** An entry's bytes with another size. */
  lemma ResizedBytes(d: seq<Byte>, d': seq<Byte>, off: nat, e: Entry, size: Uint)
    requires EntryAt(d, off, e) && Outside(d, d', off + SIZE, off + SIZE + 4) && Word4(d', off + SIZE) == size
    ensures d'[off..off + Size(e)] == WordsBytes(Fields(e.inode.(size := size))) + e.data
  {
    FieldStored(d, d', off, e, 6, size);
    assert Fields(e.inode)[6 := size] == Fields(e.inode.(size := size));
  }

  lemma Cut(d: seq<Byte>, o: nat, a: nat, n: nat)
    requires a <= n && o + n <= |d|
    ensures d[o..o + n] == d[o..o + a] + d[o + a..o + n]
  {
  }

  lemma Glue(d: seq<Byte>, o: nat, a: nat, b: nat, n: nat)
    requires a <= b <= n && o + n <= |d|
    ensures d[o..o + n] == d[o..o + a] + d[o + a..o + b] + d[o + b..o + n]
  {
  }

  /** The first half of wfs_mknod and wfs_mkdir: a new version of the directory at entry k. */
  method AppendParent(img: Image, parent: nat, ghost k: nat, size: nat, head: nat, name: seq<Byte>, number: nat)
    requires img.Valid() && k < |img.es| && parent == Start(img.es, k) && size == |img.es[k].data|
             && head == End(img.es)
    requires IsDir(img.es[k]) && DentryOk(Dentry(name, number)) && head + INODE + size + DENTRY <= img.data.Length
    modifies img`es, img.data
    ensures img.Valid() && End(img.es) == head + INODE + size + DENTRY
    ensures img.es == old(img.es) + [WithDentry(old(img.es)[k], Dentry(name, number))]
    ensures Behind(old(img.data[..]), img.data[..], End(img.es))
  {
    ghost var e, d, d0 := img.es[k], Dentry(name, number), img.data[..];
    EntryIn(d0, img.es, k);
    WithDentryOk(e, d);
    PutExtended(img, parent, e, size, head, name, number);
    img.Advance(d0, WithDentry(e, d), size + DENTRY, End(img.es) + Size(WithDentry(e, d)));
  }

  /** The bytes of that version are stored at head. */
  method PutExtended(img: Image, parent: nat, ghost e: Entry, size: nat, head: nat, name: seq<Byte>, number: nat)
    requires EntryAt(img.data[..], parent, e) && parent + Size(e) <= head && size == |e.data| && size % DENTRY == 0
    requires |name| == NAME && number < UINT && size + DENTRY < UINT && head + INODE + size + DENTRY <= img.data.Length
    modifies img.data
    ensures var e' := WithDentry(e, Dentry(name, number));
            Outside(old(img.data[..]), img.data[..], head, head + Size(e')) && EntryAt(img.data[..], head, e')
  {
    ghost var d, d0 := Dentry(name, number), img.data[..];
    img.Memcpy(head, parent, INODE + size);
    ghost var d1 := img.data[..];
    img.PutDentry(head + INODE + DENTRY * (size / DENTRY), Dentry(name, number));
    ghost var d2 := img.data[..];
    img.PutWord(head + SIZE, size + DENTRY);
    CopyBytes(d0, d1, d2, img.data[..], head, e, d);
  }

  /** The second half: the first entry of the new inode, an empty one. */
  method AppendEmpty(img: Image, inode: Inode, head: nat)
    requires img.Valid() && head == End(img.es) && head + INODE <= img.data.Length
    requires inode.size == 0 && inode.number < INT
    modifies img`es, img.data
    ensures img.Valid() && img.es == old(img.es) + [Entry(inode, [])] && EntryOk(Entry(inode, []))
    ensures End(img.es) == head + INODE
    ensures Behind(old(img.data[..]), img.data[..], End(img.es))
  {
    ghost var d0, e := img.data[..], Entry(inode, []);
    img.PutInode(head, inode);
    assert WordsBytes(Fields(inode)) == EntryBytes(e);
    assert Dentries(e.data) == [];
    img.Advance(d0, e, 0, End(img.es) + Size(e));
  }

  /** What is left of wfs_mknod and wfs_mkdir once the parent, the directory at entry p, is found. */
  method CreateIn(img: Image, parent: nat, ghost p: nat, name: seq<Byte>, mode: Uint, m: Meta) returns (r: int)
    requires img.Valid() && p < |img.es| && parent == Start(img.es, p) && IsDir(img.es[p])
    requires |name| == NAME && name[NAME - 1] == 0 && MaxNumber(img.es, |img.es|) + 1 < INT
    requires Live(img.es[p], img.es[p].inode.number)
    modifies img`es, img.data
    ensures img.Valid()
    ensures Behind(old(img.data[..]), img.data[..], End(img.es))
    ensures CreatedIn(old(img.es), p, name, mode, img.data.Length, r, img.es)
    ensures r == 0 ==> CreatedWith(old(img.es), p, name, mode, m, img.es)
  {
    var max := img.FindMax();
    var number: nat := max + 1;
    assert DentryOk(Dentry(name, number));
    var _, _, _, size := img.Header(parent, p);
    var head := img.GetWord(4);
    if head + INODE + size + DENTRY > img.data.Length {
      return -ENOSPC;
    }
    r := CreateBoth(img, parent, p, size, head, name, number, mode, m);
  }

  /** ... where the parent's new version fits. */
  method CreateBoth(img: Image, parent: nat, ghost p: nat, size: nat, head: nat, name: seq<Byte>, number: nat,
                    mode: Uint, m: Meta) returns (r: int)
    requires img.Valid() && p < |img.es| && parent == Start(img.es, p) && IsDir(img.es[p])
    requires size == |img.es[p].data| && head == End(img.es) && head + INODE + size + DENTRY <= img.data.Length
    requires DentryOk(Dentry(name, number)) && number == MaxNumber(img.es, |img.es|) + 1 < INT
    requires Live(img.es[p], img.es[p].inode.number)
    modifies img`es, img.data
    ensures img.Valid()
    ensures Behind(old(img.data[..]), img.data[..], End(img.es))
    ensures CreatedIn(old(img.es), p, name, mode, img.data.Length, r, img.es)
    ensures r == 0 ==> CreatedWith(old(img.es), p, name, mode, m, img.es)
  {
    ghost var es0, d0 := img.es, img.data[..];
    EntryIn(d0, es0, p);
    AppendParent(img, parent, p, size, head, name, number);
    ghost var d1, es1 := img.data[..], img.es;
    r := CreateFile(img, p, name, number, mode, m, es0);
    BehindTwice(d0, d1, img.data[..], End(es1), End(img.es));
    CreateEnds(es0, p, name, number, mode, img.data.Length, r, es1, img.es);
  }

  lemma CreateEnds(es0: seq<Entry>, p: nat, name: seq<Byte>, number: nat, mode: Uint, length: nat, r: int,
                   es1: seq<Entry>, es: seq<Entry>)
    requires p < |es0| && number == MaxNumber(es0, |es0|) + 1 && Listed(es0, p, Dentry(name, number), es1)
    requires End(es1) == End(es0) + Size(es0[p]) + DENTRY <= length
    requires if End(es1) + INODE > length then r == -ENOSPC && es == es1
             else r == 0 && Made(es0, p, name, mode, es)
    ensures CreatedIn(es0, p, name, mode, length, r, es)
  {
  }

  /** ... once the parent's new version is appended to the log es0. */
  method CreateFile(img: Image, ghost p: nat, name: seq<Byte>, number: nat, mode: Uint, m: Meta, ghost es0: seq<Entry>)
      returns (r: int)
    requires img.Valid() && p < |es0| && Listed(es0, p, Dentry(name, number), img.es)
             && number == MaxNumber(es0, |es0|) + 1 < INT
    requires DentryOk(Dentry(name, number)) && EntryOk(es0[p]) && IsDir(es0[p]) && Live(es0[p], es0[p].inode.number)
    modifies img`es, img.data
    ensures img.Valid() && End(img.es) >= old(End(img.es))
    ensures Behind(old(img.data[..]), img.data[..], End(img.es))
    ensures if old(End(img.es)) + INODE > img.data.Length then r == -ENOSPC && img.es == old(img.es)
            else r == 0 && Made(es0, p, name, mode, img.es)
    ensures r == 0 ==> CreatedWith(es0, p, name, mode, m, img.es)
  {
    var head := img.GetWord(4);
    if head + INODE > img.data.Length {
      return -ENOSPC;
    }
    AppendEmpty(img, NewInode(number, mode, 0, m), head);
    MadeEntriesOk(es0, p, name, mode, m, img.es);
    r := 0;
  }

  /** The two entries of a create: the parent with the new name added, its inode otherwise as it was, and an
      empty inode of the next number. */
  ghost predicate CreatedWith(es: seq<Entry>, p: nat, name: seq<Byte>, mode: Uint, m: Meta, es': seq<Entry>)
    requires p < |es|
  {
    && |es'| == |es| + 2 && es'[..|es|] == es
    && var e, f := es'[|es|], es'[|es| + 1];
       && |es[p].data| + DENTRY < UINT && e.inode == es[p].inode.(size := |es[p].data| + DENTRY)
       && f.inode.number > 0 && (forall k | 0 <= k < |es| :: es[k].inode.number < f.inode.number)
       && (f.inode.number == 1 || exists k | 0 <= k < |es| :: es[k].inode.number + 1 == f.inode.number)
       && |name| == NAME && e.data == es[p].data + DentryBytes(Dentry(name, f.inode.number))
       && f.inode.mode == mode && f.inode.size == 0 && Stamped(f.inode, m) && f.data == []
  }

  lemma MadeEntriesOk(es: seq<Entry>, p: nat, name: seq<Byte>, mode: Uint, m: Meta, es': seq<Entry>)
    requires p < |es| && EntryOk(es[p]) && IsDir(es[p]) && |es[p].data| + DENTRY < UINT
    requires MaxNumber(es, |es|) + 1 < INT && DentryOk(Dentry(name, MaxNumber(es, |es|) + 1))
    requires var number := MaxNumber(es, |es|) + 1; var f := Entry(NewInode(number, mode, 0, m), []);
             EntryOk(f) && es' == es + [WithDentry(es[p], Dentry(name, number))] + [f]
    requires Live(es[p], es[p].inode.number)
    ensures Made(es, p, name, mode, es') && CreatedWith(es, p, name, mode, m, es')
  {
    var number := MaxNumber(es, |es|) + 1;
    var e, f := WithDentry(es[p], Dentry(name, number)), Entry(NewInode(number, mode, 0, m), []);
    WithDentryOk(es[p], Dentry(name, number));
    assert es' == es + [e, f];
    assert MadeBy(es, p, name, mode, es', e, f);
  }

  /** Only the directory's new version was appended: it lists an inode that does not exist. */
  ghost predicate Listed(es: seq<Entry>, p: nat, d: Dentry, es': seq<Entry>)
    requires p < |es|
  {
    && |d.name| == NAME && d.number < UINT && |es[p].data| + DENTRY < UINT
    && es' == es + [WithDentry(es[p], d)]
  }

  /** No room for the new version of the directory, or only for that, or success. */
  ghost predicate CreatedIn(es: seq<Entry>, p: nat, name: seq<Byte>, mode: Uint, length: nat, r: int, es': seq<Entry>)
    requires p < |es|
  {
    var end := End(es) + Size(es[p]) + DENTRY;
    if end > length then r == -ENOSPC && es' == es
    else if end + INODE > length then r == -ENOSPC && Listed(es, p, Dentry(name, MaxNumber(es, |es|) + 1), es')
    else r == 0 && Made(es, p, name, mode, es')
  }

  /** A create that fails after the directory's new version leaves a name without an inode, and the
      next create gives the same inode number again. */
  lemma {:induction false} HalfCreated(es: seq<Entry>, p: nat, d: Dentry, es': seq<Entry>)
    requires EntriesOk(es) && p < |es| && IsDir(es[p]) && Current(es, es[p].inode.number) == p
    requires DentryOk(d) && d.number == MaxNumber(es, |es|) + 1 && Listed(es, p, d, es')
    ensures Current(es', d.number) == -1 && MaxNumber(es', |es'|) == MaxNumber(es, |es|)
    ensures Listing(es', es[p].inode.number) == Listing(es, es[p].inode.number) + [d]
  {
    var e, n := WithDentry(es[p], d), es[p].inode.number;
    WithDentryOk(es[p], d);
    NumberFresh(es);
    CurrentAdded(es, e, d.number);
    CurrentAdded(es, e, n);
    MaxSame(es, es', |es|);
  }

  lemma {:induction false} MaxSame(es: seq<Entry>, es': seq<Entry>, k: nat)
    requires k <= |es| && k <= |es'| && forall j | 0 <= j < k :: es'[j].inode.number == es[j].inode.number
    ensures MaxNumber(es', k) == MaxNumber(es, k)
  {
    if k > 0 {
      MaxSame(es, es', k - 1);
    }
  }

  /** Create keeps the tree if and only if it does not run out of room between its two entries. */
  lemma {:induction false} CreateKeepsTree(es: seq<Entry>, p: nat, name: seq<Byte>, mode: Uint, length: nat, r: int,
                                           es': seq<Entry>)
    requires TreeOk(es) && p < |es| && IsDir(es[p]) && Current(es, es[p].inode.number) == p
    requires |name| == NAME && name[NAME - 1] == 0 && MaxNumber(es, |es|) + 1 < INT
    requires CreatedIn(es, p, name, mode, length, r, es')
    ensures TreeOk(es') <==> !(End(es) + Size(es[p]) + DENTRY <= length < End(es) + Size(es[p]) + DENTRY + INODE)
  {
    var end, d, n := End(es) + Size(es[p]) + DENTRY, Dentry(name, MaxNumber(es, |es|) + 1), es[p].inode.number;
    if end + INODE <= length {
      MadeEffect(es, p, name, mode, es');
    } else if end <= length {
      HalfCreated(es, p, d, es');
      assert Lists(es', n, |Listing(es, n)|, d.number);
    }
  }

  /** wfs_mknod and wfs_mkdir, which differ in the mode only. The kernel passes a path whose parent
      it has looked up and found to be a directory. */
  method Create(img: Image, path: seq<Byte>, mode: Uint, m: Meta) returns (r: int)
    requires img.Valid() && CPath(path) && MaxNumber(img.es, |img.es|) + 1 < INT
    requires var p := Lookup(img.es, Tokens(Parent(path))); p >= 0 ==> IsDir(img.es[p])
    modifies img`es, img.data
    ensures img.Valid()
    ensures Behind(old(img.data[..]), img.data[..], End(img.es))
    ensures Created(old(img.es), path, mode, img.data.Length, r, img.es)
    ensures r == 0 ==> var p := old(Lookup(img.es, Tokens(Parent(path))));
                       p >= 0 && CreatedWith(old(img.es), p, FileName(File(path)), mode, m, img.es)
  {
    var entry := FindByPath(img, path);
    if entry != -1 {
      return -EEXIST;
    }
    var dir, name := Separate(path);
    ParentPath(path);
    var parent := FindByPath(img, dir);
    if parent == -1 {
      return -ENOENT;
    }
    r := CreateIn(img, parent, Lookup(img.es, Tokens(dir)), name, mode, m);
  }

  lemma ParentPath(path: seq<Byte>)
    requires CPath(path)
    ensures CPath(Parent(path)) && 0 !in File(path)
  {
  }

  ghost predicate Created(es: seq<Entry>, path: seq<Byte>, mode: Uint, length: nat, r: int, es': seq<Entry>)
    requires es != []
  {
    var p := Lookup(es, Tokens(Parent(path)));
    if Lookup(es, Tokens(path)) >= 0 then r == -EEXIST && es' == es
    else if p == -1 then r == -ENOENT && es' == es
    else CreatedIn(es, p, FileName(File(path)), mode, length, r, es')
  }

  /** wfs_mknod. */
  method Mknod(img: Image, path: seq<Byte>, m: Meta) returns (r: int)
    requires img.Valid() && CPath(path) && MaxNumber(img.es, |img.es|) + 1 < INT
    requires var p := Lookup(img.es, Tokens(Parent(path))); p >= 0 ==> IsDir(img.es[p])
    modifies img`es, img.data
    ensures img.Valid() && Behind(old(img.data[..]), img.data[..], End(img.es))
    ensures Created(old(img.es), path, S_IFREG, img.data.Length, r, img.es)
    ensures r == 0 ==> var p := old(Lookup(img.es, Tokens(Parent(path))));
                       && p >= 0 && Made(old(img.es), p, FileName(File(path)), S_IFREG, img.es)
                       && CreatedWith(old(img.es), p, FileName(File(path)), 0x8000, m, img.es)
  {
    r := Create(img, path, S_IFREG, m);
  }

  /** wfs_mkdir. */
  method Mkdir(img: Image, path: seq<Byte>, m: Meta) returns (r: int)
    requires img.Valid() && CPath(path) && MaxNumber(img.es, |img.es|) + 1 < INT
    requires var p := Lookup(img.es, Tokens(Parent(path))); p >= 0 ==> IsDir(img.es[p])
    modifies img`es, img.data
    ensures img.Valid() && Behind(old(img.data[..]), img.data[..], End(img.es))
    ensures Created(old(img.es), path, S_IFDIR, img.data.Length, r, img.es)
    ensures r == 0 ==> var p := old(Lookup(img.es, Tokens(Parent(path))));
                       && p >= 0 && Made(old(img.es), p, FileName(File(path)), S_IFDIR, img.es)
                       && CreatedWith(old(img.es), p, FileName(File(path)), 0x4000, m, img.es)
  {
    r := Create(img, path, S_IFDIR, m);
  }

  // ---------------------------------------------------------------- unlink

  lemma WithoutNext(c: seq<Byte>, i: nat, n: nat)
    requires DENTRY * (i + 1) <= |c|
    ensures Without(FirstDentries(c, i + 1), n)
            == Without(FirstDentries(c, i), n) + if DentryAt(c, i).number == n then [] else [DentryAt(c, i)]
  {
    var ds := FirstDentries(c, i + 1);
    assert ds[..i] == FirstDentries(c, i) && ds[i] == DentryAt(c, i);
  }

  lemma {:induction false} DentriesPrefix(c: seq<Byte>, i: nat, num: nat)
    requires i <= num && DENTRY * num <= |c|
    ensures FirstDentries(c, num)[..i] == FirstDentries(c, i)
    decreases num
  {
    if i < num {
      DentriesPrefix(c, i, num - 1);
      assert FirstDentries(c, num)[..i] == FirstDentries(c, num - 1)[..i];
    }
  }

  lemma {:induction false} WithoutPrefix(ds: seq<Dentry>, i: nat, n: nat)
    requires i <= |ds|
    ensures |Without(ds[..i], n)| <= |Without(ds, n)|
  {
    if i < |ds| {
      var last := |ds| - 1;
      WithoutPrefix(ds[..last], i, n);
      assert ds[..last][..i] == ds[..i];
    } else {
      assert ds[..i] == ds;
    }
  }

  lemma {:induction false} WithoutShorter(c: seq<Byte>, i: nat, num: nat, n: nat)
    requires i <= num && DENTRY * num <= |c|
    ensures |Without(FirstDentries(c, i), n)| <= |Without(FirstDentries(c, num), n)|
  {
    DentriesPrefix(c, i, num);
    WithoutPrefix(FirstDentries(c, num), i, n);
  }

  /** One more dentry at the end of a run of them. */
  lemma RunExtended(d: seq<Byte>, d': seq<Byte>, dst: nat, k: nat, dentry: Dentry)
    requires |dentry.name| == NAME && dentry.number < UINT && dst + DENTRY * (k + 1) <= |d|
    requires Outside(d, d', dst + DENTRY * k, dst + DENTRY * (k + 1))
    requires d'[dst + DENTRY * k..dst + DENTRY * (k + 1)] == DentryBytes(dentry)
    ensures FirstDentries(d'[dst..dst + DENTRY * (k + 1)], k + 1)
              == FirstDentries(d[dst..dst + DENTRY * k], k) + [dentry]
  {
    var run := d[dst..dst + DENTRY * k];
    SliceSame(d, d', dst + DENTRY * k, dst + DENTRY * (k + 1), dst, dst + DENTRY * k);
    Cut(d', dst, DENTRY * k, DENTRY * (k + 1));
    DentryNext(run, k, dentry);
  }

  /** What the loop below reads. */
  lemma SourceSlot(d: seq<Byte>, src: nat, c: seq<Byte>, i: nat)
    requires src + |c| <= |d| && d[src..src + |c|] == c && DENTRY * (i + 1) <= |c|
    ensures d[src + DENTRY * i..src + DENTRY * i + NAME] == DentryAt(c, i).name
    ensures Word4(d, src + DENTRY * i + NAME) + UINT * Word4(d, src + DENTRY * i + NAME + 4) == DentryAt(c, i).number
  {
    var o := src + DENTRY * i;
    SubSlice(d, src, |c|, DENTRY * i, DENTRY * (i + 1));
    SubSlice(d, o, DENTRY, 0, NAME);
    WordIn(d, o, DENTRY, NAME);
    WordIn(d, o, DENTRY, NAME + 4);
  }

  /** What the first i turns of the loop below have done. */
  ghost predicate CopiedRun(d0: seq<Byte>, d: seq<Byte>, dst: nat, curr: nat, c: seq<Byte>, i: nat, n: nat)
    requires DENTRY * i <= |c| && dst + DENTRY * curr <= |d0|
  {
    && Outside(d0, d, dst, dst + DENTRY * curr) && curr == |Without(FirstDentries(c, i), n)|
    && FirstDentries(d[dst..dst + DENTRY * curr], curr) == Without(FirstDentries(c, i), n)
  }

  lemma RunTurn(d0: seq<Byte>, d: seq<Byte>, d': seq<Byte>, dst: nat, curr: nat, next: nat, c: seq<Byte>, i: nat,
                j: nat, n: nat, mid: nat, end: nat)
    requires j == i + 1 && next == curr + 1 && mid == dst + DENTRY * curr && end == dst + DENTRY * next <= |d0|
    requires DENTRY * j <= |c| && CopiedRun(d0, d, dst, curr, c, i, n)
    requires DentryAt(c, i).number < UINT && DentryAt(c, i).number != n
    requires Outside(d, d', mid, end) && d'[mid..end] == DentryBytes(DentryAt(c, i))
    ensures CopiedRun(d0, d', dst, next, c, j, n)
  {
    RunCopied(d, d', dst, curr, c, i, n);
    RunOutside(d0, d, d', dst, mid, end);
  }

  lemma RunCopied(d: seq<Byte>, d': seq<Byte>, dst: nat, curr: nat, c: seq<Byte>, i: nat, n: nat)
    requires DENTRY * (i + 1) <= |c| && dst + DENTRY * (curr + 1) <= |d| == |d'|
    requires DentryAt(c, i).number < UINT && DentryAt(c, i).number != n && curr == |Without(FirstDentries(c, i), n)|
    requires FirstDentries(d[dst..dst + DENTRY * curr], curr) == Without(FirstDentries(c, i), n)
    requires Outside(d, d', dst + DENTRY * curr, dst + DENTRY * (curr + 1))
    requires d'[dst + DENTRY * curr..dst + DENTRY * (curr + 1)] == DentryBytes(DentryAt(c, i))
    ensures curr + 1 == |Without(FirstDentries(c, i + 1), n)|
    ensures FirstDentries(d'[dst..dst + DENTRY * (curr + 1)], curr + 1) == Without(FirstDentries(c, i + 1), n)
  {
    RunExtended(d, d', dst, curr, DentryAt(c, i));
    WithoutNext(c, i, n);
  }

  lemma RunOutside(d0: seq<Byte>, d: seq<Byte>, d': seq<Byte>, dst: nat, mid: nat, end: nat)
    requires dst <= mid <= end <= |d0| && Outside(d0, d, dst, mid) && Outside(d, d', mid, end)
    ensures Outside(d0, d', dst, end)
  {
    OutsideTwice(d0, d, d', dst, mid, mid, end, dst, end);
  }

  method ReadDentry(img: Image, src: nat, i: nat, ghost c: seq<Byte>) returns (d: Dentry)
    requires src + |c| <= img.data.Length && DENTRY * (i + 1) <= |c| && img.data[..][src..src + |c|] == c
    ensures d == DentryAt(c, i)
  {
    SourceSlot(img.data[..], src, c, i);
    var o := src + DENTRY * i;
    var low := img.GetWord(o + NAME);
    var high := img.GetWord(o + NAME + 4);
    assert img.data[o..o + NAME] == img.data[..][o..o + NAME];
    d := Dentry(img.data[o..o + NAME], low + UINT * high);
  }

  lemma RunLength(d0: seq<Byte>, d: seq<Byte>, dst: nat, curr: nat, c: seq<Byte>, i: nat, n: nat)
    requires DENTRY * (i + 1) <= |c| && dst + DENTRY * curr <= |d0| && CopiedRun(d0, d, dst, curr, c, i, n)
    ensures |Without(FirstDentries(c, i + 1), n)| == if DentryAt(c, i).number == n then curr else curr + 1
    ensures DentryAt(c, i).number == n ==> CopiedRun(d0, d, dst, curr, c, i + 1, n)
  {
    WithoutNext(c, i, n);
  }

  lemma SourceKept(d0: seq<Byte>, d: seq<Byte>, src: nat, dst: nat, hi: nat, c: seq<Byte>)
    requires src + |c| <= dst <= |d0| && d0[src..src + |c|] == c && Outside(d0, d, dst, hi)
    ensures |d| == |d0| && d[src..src + |c|] == c
  {
    SliceSame(d0, d, dst, hi, src, src + |c|);
  }

  /** One turn of the loop below; ok is false where the store would run past the image. */
  method CopyDentry(img: Image, src: nat, dst: nat, curr: nat, i: nat, n: nat, ghost c: seq<Byte>, ghost d0: seq<Byte>)
      returns (ok: bool, next: nat)
    requires |d0| == img.data.Length && src + |c| <= dst <= |d0| && DENTRY * (i + 1) <= |c| && d0[src..src + |c|] == c
    requires dst + DENTRY * curr <= |d0| && DentryOk(DentryAt(c, i)) && CopiedRun(d0, img.data[..], dst, curr, c, i, n)
    modifies img.data
    ensures next == |Without(FirstDentries(c, i + 1), n)| && (ok <==> dst + DENTRY * next <= |d0|)
    ensures ok ==> CopiedRun(d0, img.data[..], dst, next, c, i + 1, n)
    ensures !ok ==> img.data[..] == old(img.data[..])
  {
    SourceKept(d0, img.data[..], src, dst, dst + DENTRY * curr, c);
    var dentry := ReadDentry(img, src, i, c);
    RunLength(d0, img.data[..], dst, curr, c, i, n);
    if dentry.number == n {
      return true, curr;
    }
    next := curr + 1;
    ok := dst + DENTRY * next <= img.data.Length;
    if ok {
      PutCopy(img, dst, curr, next, dentry, i, i + 1, n, c, d0);
    }
  }

  /** ... that is not skipped. */
  method PutCopy(img: Image, dst: nat, curr: nat, ghost next: nat, dentry: Dentry, ghost i: nat, ghost j: nat,
                 ghost n: nat, ghost c: seq<Byte>, ghost d0: seq<Byte>)
    requires j == i + 1 && next == curr + 1
    requires |d0| == img.data.Length && dst + DENTRY * next <= |d0| && DENTRY * j <= |c|
    requires dentry == DentryAt(c, i) && DentryOk(dentry) && dentry.number != n
    requires CopiedRun(d0, img.data[..], dst, curr, c, i, n)
    modifies img.data
    ensures CopiedRun(d0, img.data[..], dst, next, c, j, n)
  {
    ghost var d := img.data[..];
    img.PutDentry(dst + DENTRY * curr, dentry);
    RunTurn(d0, d, img.data[..], dst, curr, next, c, i, j, n, dst + DENTRY * curr, dst + DENTRY * next);
  }

  lemma SlotTurn(c: seq<Byte>, i: nat, num: nat, n: nat)
    requires i < num && DENTRY * num <= |c| && SlotsOk(c, num)
    ensures DentryOk(DentryAt(c, i))
    ensures |Without(FirstDentries(c, i + 1), n)| <= |Without(FirstDentries(c, num), n)|
  {
    assert SlotOk(c, i);
    WithoutShorter(c, i + 1, num, n);
  }

  /** The loop of wfs_unlink: the dentries at src but those of inode n, copied to dst. */
  method CopyDentries(img: Image, src: nat, dst: nat, num: nat, n: nat, ghost c: seq<Byte>) returns (ok: bool)
    requires |c| == DENTRY * num && src + |c| <= dst <= img.data.Length && img.data[..][src..src + |c|] == c
    requires SlotsOk(c, num)
    modifies img.data
    ensures ok <==> dst + DENTRY * |Without(FirstDentries(c, num), n)| <= img.data.Length
    ensures ok ==> CopiedRun(old(img.data[..]), img.data[..], dst, |Without(FirstDentries(c, num), n)|, c, num, n)
    ensures !ok ==> Outside(old(img.data[..]), img.data[..], dst, img.data.Length)
  {
    ghost var d0 := img.data[..];
    assert d0[src..src + |c|] == c;
    var curr := 0;
    for i := 0 to num
      invariant curr == |Without(FirstDentries(c, i), n)| && dst + DENTRY * curr <= |d0|
      invariant CopiedRun(d0, img.data[..], dst, curr, c, i, n)
    {
      SlotTurn(c, i, num, n);
      ok, curr := CopyDentry(img, src, dst, curr, i, n, c, d0);
      if !ok {
        return;
      }
    }
    ok := true;
  }

  /** The slots of a directory whose first ones w fill; what was there before shows in the others. */
  function Refilled(w: seq<Dentry>, under: seq<Dentry>): seq<Dentry> {
    if |w| >= |under| then w[..|under|] else w + under[|w|..]
  }

  /** The bytes of directory dir without the inode n, behind the log: the size is that of one dentry
      less, however many the loop copies. */
  method PutWithout(img: Image, parent: nat, ghost dir: Entry, inode: Inode, num: nat, head: nat, n: nat)
      returns (ok: bool)
    requires EntryAt(img.data[..], parent, dir) && parent + Size(dir) <= head <= head + INODE <= img.data.Length
    requires EntryOk(dir) && IsDir(dir) && |dir.data| == DENTRY * num
    modifies img.data
    ensures var k := |Without(Dentries(dir.data), n)|;
            && (ok <==> head + INODE + DENTRY * k <= img.data.Length)
            && (ok ==> PutAs(old(img.data[..]), img.data[..], head, inode, Without(Dentries(dir.data), n)))
    ensures !ok ==> Outside(old(img.data[..]), img.data[..], head, img.data.Length)
  {
    ghost var d0 := img.data[..];
    img.PutInode(head, inode);
    ghost var d1 := img.data[..];
    DataKept(d0, d1, parent, dir, head, head + INODE);
    DentriesOk(dir, num);
    ok := CopyDentries(img, parent + INODE, head + INODE, num, n, dir.data);
    ghost var d2 := img.data[..];
    if ok {
      RemovedBytes(d0, d1, d2, head, inode, Without(Dentries(dir.data), n));
    } else {
      OutsideTwice(d0, d1, d2, head, head + INODE, head + INODE, |d0|, head, |d0|);
    }
  }

  /** The inode and then the dentries ds have been written at head, and nothing else. */
  ghost predicate PutAs(d0: seq<Byte>, d: seq<Byte>, head: nat, inode: Inode, ds: seq<Dentry>) {
    var o := head + INODE;
    && o + DENTRY * |ds| <= |d0| && Outside(d0, d, head, o + DENTRY * |ds|)
    && d[head..o] == WordsBytes(Fields(inode))
    && FirstDentries(d[o..o + DENTRY * |ds|], |ds|) == ds
  }

  lemma RemovedBytes(d0: seq<Byte>, d1: seq<Byte>, d2: seq<Byte>, head: nat, inode: Inode, ds: seq<Dentry>)
    requires head + INODE + DENTRY * |ds| <= |d0|
    requires Outside(d0, d1, head, head + INODE) && d1[head..head + INODE] == WordsBytes(Fields(inode))
    requires Outside(d1, d2, head + INODE, head + INODE + DENTRY * |ds|)
    requires FirstDentries(d2[head + INODE..head + INODE + DENTRY * |ds|], |ds|) == ds
    ensures PutAs(d0, d2, head, inode, ds)
  {
    var hi := head + INODE + DENTRY * |ds|;
    SliceSame(d1, d2, head + INODE, hi, head, head + INODE);
    OutsideTwice(d0, d1, d2, head, head + INODE, head + INODE, hi, head, hi);
  }

  /** The entry that num - 1 dentries make of what PutAs has written, and of what lay behind. */
  lemma {:induction false} PutEntry(d0: seq<Byte>, d: seq<Byte>, head: nat, inode: Inode, ds: seq<Dentry>, m: nat)
    requires PutAs(d0, d, head, inode, ds) && head + INODE + DENTRY * m <= |d0| && inode.size == DENTRY * m
    ensures var e, under := Entry(inode, d[head + INODE..head + INODE + DENTRY * m]),
                            d0[head + INODE..head + INODE + DENTRY * m];
            EntryAt(d, head, e) && Dentries(e.data) == Refilled(ds, FirstDentries(under, m))
  {
    var o := head + INODE;
    var e, under := Entry(inode, d[o..o + DENTRY * m]), d0[o..o + DENTRY * m];
    assert d[head..head + Size(e)] == d[head..o] + d[o..head + Size(e)];
    assert |e.data| / DENTRY == m;
    var r := Refilled(ds, FirstDentries(under, m));
    forall j | 0 <= j < m
      ensures FirstDentries(e.data, m)[j] == r[j]
    {
      PutSlot(d0, d, head, inode, ds, m, j);
    }
  }

  lemma {:induction false} PutSlot(d0: seq<Byte>, d: seq<Byte>, head: nat, inode: Inode, ds: seq<Dentry>, m: nat,
                                   j: nat)
    requires PutAs(d0, d, head, inode, ds) && head + INODE + DENTRY * m <= |d0| && j < m
    ensures var o := head + INODE;
            FirstDentries(d[o..o + DENTRY * m], m)[j]
            == if j < |ds| then ds[j] else FirstDentries(d0[o..o + DENTRY * m], m)[j]
  {
    var o := head + INODE;
    var s := o + DENTRY * j;
    SlotSlice(d, o, m, j);
    if j < |ds| {
      SlotSlice(d, o, |ds|, j);
    } else {
      SlotSlice(d0, o, m, j);
      SliceSame(d0, d, head, o + DENTRY * |ds|, s, s + DENTRY);
    }
  }

  lemma {:induction false} SlotSlice(d: seq<Byte>, o: nat, m: nat, j: nat)
    requires o + DENTRY * m <= |d| && j < m
    ensures FirstDentries(d[o..o + DENTRY * m], m)[j] == Decode(d[o + DENTRY * j..o + DENTRY * j + DENTRY])
  {
    DentriesAt(d[o..o + DENTRY * m], m, j);
    SubSlice(d, o, DENTRY * m, DENTRY * j, DENTRY * (j + 1));
  }

  lemma DentriesOk(e: Entry, num: nat)
    requires EntryOk(e) && IsDir(e) && |e.data| == DENTRY * num
    ensures Dentries(e.data) == FirstDentries(e.data, num)
    ensures SlotsOk(e.data, num)
  {
    assert |e.data| / DENTRY == num;
    forall i | 0 <= i < num
      ensures SlotOk(e.data, i)
    {
      DirSlot(e, i);
      DentriesAt(e.data, num, i);
    }
  }

  predicate SlotOk(c: seq<Byte>, i: nat) {
    DENTRY * (i + 1) <= |c| && DentryOk(DentryAt(c, i))
  }

  predicate SlotsOk(c: seq<Byte>, num: nat) {
    forall i | 0 <= i < num :: SlotOk(c, i)
  }

  /** What a successful unlink of inode n appends for the directory of entry p: a version with one
      slot less, which the dentries that remain fill as far as they go; d0 is the image before. */
  ghost predicate RefilledBy(es: seq<Entry>, p: nat, n: nat, d0: seq<Byte>, es': seq<Entry>, e: Entry)
    requires p < |es|
  {
    var ds, o := Dentries(es[p].data), End(es) + INODE;
    && ds != [] && o + DENTRY * (|ds| - 1) <= |d0|
    && es' == Deleted(es, n) + [e] && Live(e, es[p].inode.number) && IsDir(e)
    && e.inode.size == |e.data| == DENTRY * (|ds| - 1)
    && Dentries(e.data) == Refilled(Without(ds, n), FirstDentries(d0[o..o + DENTRY * (|ds| - 1)], |ds| - 1))
  }

  /** The entries are still there, but the head points into what was written behind them. */
  ghost predicate Lost(d: seq<Byte>, es: seq<Entry>) {
    EntriesAt(d, es) && (forall e | e in es :: EntryOk(e)) && End(es) + 4 <= |d| && Word4(d, 4) == End(es) + 4
  }

  /** A log follows in which all entries are well formed, the last one apart. */
  ghost predicate AllButLast(d: seq<Byte>, es: seq<Entry>) {
    es != [] && Walks(d, es) && forall j | 0 <= j < |es| - 1 :: EntryOk(es[j])
  }

  /** Whether the directory of entry p with one dentry less fits behind the log: the source computes
      it modulo 2^64, where an empty directory's -1 dentries leave 4 bytes. */
  predicate HasRoom(es: seq<Entry>, p: nat, length: nat)
    requires p < |es|
  {
    End(es) + INODE + DENTRY * (|Dentries(es[p].data)| - 1) <= length
  }

  /** How many slots behind the new inode the loop writes or the new size covers. */
  function Reach(es: seq<Entry>, p: nat, n: nat): nat
    requires p < |es|
  {
    var num, k := |Dentries(es[p].data)|, |Without(Dentries(es[p].data), n)|;
    if k >= num then k else num - 1
  }

  /** What unlink leaves once the file's inode n and the directory of entry p are found: no room, with
      the file's entries deleted all the same; a store past the image, where ok is false; or success,
      after which the image represents a log unless the directory was empty. */
  ghost predicate UnlinkedIn(es: seq<Entry>, d0: seq<Byte>, p: nat, n: nat, ok: bool, r: int, es': seq<Entry>,
                             d': seq<Byte>)
    requires p < |es|
  {
    var num, k, o := |Dentries(es[p].data)|, |Without(Dentries(es[p].data), n)|, End(es) + INODE;
    if !HasRoom(es, p, |d0|) then ok && r == -ENOSPC && es' == Deleted(es, n) && Rep(d', es') && Behind(d0, d', End(es))
    else if o + DENTRY * k > |d0| then !ok && es' == Deleted(es, n) && Rep(d', es')
    else
      && ok && r == 0 && Behind(d0, d', o + DENTRY * Reach(es, p, n))
      && if num == 0 then es' == Deleted(es, n) && Lost(d', es')
         else AllButLast(d', es') && exists e :: RefilledBy(es, p, n, d0, es', e)
  }

  ghost predicate Unlinked(es: seq<Entry>, d0: seq<Byte>, path: seq<Byte>, ok: bool, r: int, es': seq<Entry>,
                           d': seq<Byte>)
    requires es != []
  {
    var l, p := Lookup(es, Tokens(path)), Lookup(es, Tokens(Parent(path)));
    if l == -1 then ok && r == -ENOENT && es' == es && d' == d0
    else if IsDir(es[l]) then ok && r == -EISDIR && es' == es && d' == d0
    else if p == -1 then ok && r == -ENOENT && es' == es && d' == d0
    else UnlinkedIn(es, d0, p, es[l].inode.number, ok, r, es', d')
  }

  /** What is left of wfs_unlink once the file's inode n and the directory at entry p are found. */
  method UnlinkIn(img: Image, parent: nat, ghost p: nat, n: nat, m: Meta) returns (ok: bool, r: int)
    requires img.Valid() && p < |img.es| && parent == Start(img.es, p) && IsDir(img.es[p])
    requires n != img.es[p].inode.number && Current(img.es, n) >= 0 && img.es[p].inode.deleted == 0
    modifies img`es, img.data
    ensures UnlinkedIn(old(img.es), old(img.data[..]), p, n, ok, r, img.es, img.data[..])
    ensures |img.es| > |old(img.es)| ==> Rewritten(old(img.es)[p], img.es[|old(img.es)|], m)
  {
    ghost var es0, d0 := img.es, img.data[..];
    DeletedOther(es0, n, p);
    var res := img.DeleteEntries(n);
    ok, r := RewriteParent(img, parent, p, n, m, es0, d0);
    if r == 0 {
      r := if res == 1 then 0 else -ENOENT;
    }
  }

  /** The new version of a directory is the caller's now. */
  predicate Rewritten(dir: Entry, e: Entry, m: Meta) {
    e.inode.number == dir.inode.number && e.inode.mode == 0x4000 && Stamped(e.inode, m)
  }

  /** The new version of the parent, at entry p, once the entries of inode n are marked deleted; es0
      and d0 are the log and the image before that. */
  method RewriteParent(img: Image, parent: nat, ghost p: nat, n: nat, m: Meta, ghost es0: seq<Entry>,
                       ghost d0: seq<Byte>)
      returns (ok: bool, r: int)
    requires img.Valid() && p < |es0| && img.es == Deleted(es0, n) && End(img.es) == End(es0)
    requires parent == Start(img.es, p) && img.es[p] == es0[p] && IsDir(es0[p]) && n != es0[p].inode.number
    requires es0[p].inode.deleted == 0 && Behind(d0, img.data[..], End(es0))
    modifies img`es, img.data
    ensures UnlinkedIn(es0, d0, p, n, ok, r, img.es, img.data[..])
    ensures |img.es| > |es0| ==> Rewritten(es0[p], img.es[|es0|], m)
  {
    ghost var d1, e := img.data[..], es0[p];
    EntryIn(d1, img.es, p);
    var number, _, _, size := img.Header(parent, p);
    var num := size / DENTRY;
    DentriesOk(e, num);
    assert num == |Dentries(e.data)|;
    var head := img.GetWord(4);
    if head + INODE + DENTRY * (num - 1) > img.data.Length {
      UnlinkFull(es0, d0, p, n, d1);
      return true, -ENOSPC;
    }
    ok := PutParent(img, parent, p, n, m, number, num, head, es0, d0);
    r := 0;
  }

  /** ... there being room for it. */
  method PutParent(img: Image, parent: nat, ghost p: nat, n: nat, m: Meta, number: Uint, num: nat, head: nat,
                   ghost es0: seq<Entry>, ghost d0: seq<Byte>) returns (ok: bool)
    requires p < |es0| && HasRoom(es0, p, |d0|) && img.es == Deleted(es0, n) && head == End(img.es) == End(es0)
    requires EntryAt(img.data[..], parent, es0[p]) && parent + Size(es0[p]) <= head && EntryOk(es0[p]) && IsDir(es0[p])
    requires number == es0[p].inode.number != n && num == |Dentries(es0[p].data)| && |es0[p].data| == DENTRY * num
    requires Rep(img.data[..], img.es) && Behind(d0, img.data[..], head)
    modifies img`es, img.data
    ensures UnlinkedIn(es0, d0, p, n, ok, 0, img.es, img.data[..])
    ensures |img.es| > |es0| ==> Rewritten(es0[p], img.es[|es0|], m)
  {
    ghost var d1 := img.data[..];
    if head + INODE > img.data.Length {
      UnlinkPast(es0, d0, p, n, d1, d1);
      return false;
    }
    var inode := NewInode(number, S_IFDIR, (DENTRY * (num - 1)) % UINT, m);
    ok := PutWithout(img, parent, es0[p], inode, num, head, n);
    ghost var d2 := img.data[..];
    if !ok {
      UnlinkPast(es0, d0, p, n, d1, d2);
      return;
    }
    var next := (head + INODE + inode.size) % UINT;
    img.PutWord(4, next);
    img.es := UnlinkDone(d0, d1, d2, img.data[..], es0, p, n, inode);
  }

  lemma UnlinkFull(es: seq<Entry>, d0: seq<Byte>, p: nat, n: nat, d1: seq<Byte>)
    requires p < |es| && !HasRoom(es, p, |d0|) && Rep(d1, Deleted(es, n)) && Behind(d0, d1, End(es))
    ensures UnlinkedIn(es, d0, p, n, true, -ENOSPC, Deleted(es, n), d1)
  {
  }

  lemma UnlinkPast(es: seq<Entry>, d0: seq<Byte>, p: nat, n: nat, d1: seq<Byte>, d2: seq<Byte>)
    requires p < |es| && End(es) + INODE + DENTRY * |Without(Dentries(es[p].data), n)| > |d0| && HasRoom(es, p, |d0|)
    requires Rep(d1, Deleted(es, n)) && End(Deleted(es, n)) == End(es) && |d1| == |d0| && Outside(d1, d2, End(es), |d1|)
    ensures UnlinkedIn(es, d0, p, n, false, 0, Deleted(es, n), d2)
  {
    StillLog(d1, d2, Deleted(es, n));
  }

  /** The image after the last store of a successful unlink. */
  lemma UnlinkDone(d0: seq<Byte>, d1: seq<Byte>, d2: seq<Byte>, d3: seq<Byte>, es: seq<Entry>, p: nat, n: nat,
                   inode: Inode)
      returns (es': seq<Entry>)
    requires p < |es| && IsDir(es[p]) && es[p].inode.number != n && HasRoom(es, p, |d0|)
    requires Rep(d1, Deleted(es, n)) && End(Deleted(es, n)) == End(es) && Behind(d0, d1, End(es))
    requires PutAs(d1, d2, End(es), inode, Without(Dentries(es[p].data), n))
    requires inode.number == es[p].inode.number && inode.deleted == 0 && inode.mode == S_IFDIR
    requires inode.size == (DENTRY * (|Dentries(es[p].data)| - 1)) % UINT
    requires Outside(d2, d3, 4, 8) && Word4(d3, 4) == (End(es) + INODE + inode.size) % UINT
    ensures UnlinkedIn(es, d0, p, n, true, 0, es', d3)
    ensures |es'| > |es| ==> es'[|es|].inode == inode
  {
    var ds, o := Dentries(es[p].data), End(es) + INODE;
    WithoutAtMost(ds, n);
    OutsideMore(d1, d2, End(es), o + DENTRY * |Without(ds, n)|, o + DENTRY * Reach(es, p, n));
    if ds == [] {
      LostHead(d1, d2, d3, Deleted(es, n), o);
      es' := Deleted(es, n);
    } else {
      SizeFits(|ds|, o, |d0|);
      es' := Refill(d0, d1, d2, d3, es, p, n, inode, o + DENTRY * Reach(es, p, n));
    }
    BehindTwice(d0, d1, d3, End(es), o + DENTRY * Reach(es, p, n));
  }

  /** ... of a directory that was not empty. */
  lemma Refill(d0: seq<Byte>, d1: seq<Byte>, d2: seq<Byte>, d3: seq<Byte>, es: seq<Entry>, p: nat, n: nat,
               inode: Inode, hi: nat)
      returns (es': seq<Entry>)
    requires p < |es| && Dentries(es[p].data) != [] && HasRoom(es, p, |d0|)
    requires Rep(d1, Deleted(es, n)) && End(Deleted(es, n)) == End(es) && Behind(d0, d1, End(es))
    requires PutAs(d1, d2, End(es), inode, Without(Dentries(es[p].data), n)) && Outside(d1, d2, End(es), hi)
    requires inode.number == es[p].inode.number && inode.deleted == 0 && inode.mode == S_IFDIR
    requires var m := |Dentries(es[p].data)| - 1; var end := End(es) + INODE + DENTRY * m;
             inode.size == DENTRY * m && end <= hi && Outside(d2, d3, 4, 8) && Word4(d3, 4) == end
    ensures AllButLast(d3, es') && Behind(d1, d3, hi) && es' != Deleted(es, n) && exists e ::
              RefilledBy(es, p, n, d0, es', e)
    ensures |es'| == |es| + 1 && es'[|es|].inode == inode
  {
    var e := RefilledIs(d0, d1, d2, End(es), inode, Without(Dentries(es[p].data), n), |Dentries(es[p].data)| - 1);
    OneMore(d1, d2, d3, Deleted(es, n), e, hi);
    es' := Deleted(es, n) + [e];
    assert RefilledBy(es, p, n, d0, es', e);
  }

  lemma SizeFits(num: nat, o: nat, length: nat)
    requires num > 0 && o + DENTRY * (num - 1) <= length < INT
    ensures (DENTRY * (num - 1)) % UINT == DENTRY * (num - 1)
            && (o + DENTRY * (num - 1)) % UINT == o + DENTRY * (num - 1)
  {
  }

  lemma OneMore(d1: seq<Byte>, d2: seq<Byte>, d3: seq<Byte>, es: seq<Entry>, e: Entry, hi: nat)
    requires Rep(d1, es) && Outside(d1, d2, End(es), hi) && Outside(d2, d3, 4, 8) && EntryAt(d2, End(es), e)
    requires End(es) + Size(e) <= hi && Word4(d3, 4) == End(es) + Size(e)
    ensures AllButLast(d3, es + [e]) && Behind(d1, d3, hi)
  {
    Appended(d1, d2, d3, es, e, hi);
    assert forall j | 0 <= j < |es| :: (es + [e])[j] in es;
  }

  /** The entry that has been written behind the log. */
  lemma RefilledIs(d0: seq<Byte>, d1: seq<Byte>, d2: seq<Byte>, head: nat, inode: Inode, w: seq<Dentry>, m: nat)
      returns (e: Entry)
    requires head + INODE + DENTRY * m <= |d0| && Behind(d0, d1, head)
    requires PutAs(d1, d2, head, inode, w) && inode.size == DENTRY * m
    ensures e.inode == inode && |e.data| == DENTRY * m && EntryAt(d2, head, e)
    ensures var o := head + INODE; Dentries(e.data) == Refilled(w, FirstDentries(d0[o..o + DENTRY * m], m))
  {
    var o := head + INODE;
    e := Entry(inode, d2[o..o + DENTRY * m]);
    SliceBehind(d0, d1, head, o, o + DENTRY * m);
    PutEntry(d1, d2, head, inode, w, m);
  }

  lemma SliceBehind(d: seq<Byte>, d': seq<Byte>, lo: nat, a: nat, b: nat)
    requires Behind(d, d', lo) && lo <= a <= b <= |d|
    ensures d'[a..b] == d[a..b]
  {
    forall k | a <= k < b
      ensures d'[k] == d[k]
    {
      assert SameAt(d, d', k);
    }
  }

  lemma OutsideMore(d: seq<Byte>, d': seq<Byte>, lo: nat, hi: nat, more: nat)
    requires Outside(d, d', lo, hi) && hi <= more
    ensures Outside(d, d', lo, more)
  {
    assert forall k | 0 <= k < |d| && !(lo <= k < more) :: SameAt(d, d', k);
  }

  lemma {:induction false} WithoutAtMost(ds: seq<Dentry>, n: nat)
    ensures |Without(ds, n)| <= |ds|
    ensures |Without(ds, n)| == |ds| <==> forall i | 0 <= i < |ds| :: ds[i].number != n
  {
    if ds != [] {
      var last := |ds| - 1;
      WithoutAtMost(ds[..last], n);
      if |Without(ds, n)| == |ds| {
        assert forall i | 0 <= i < last :: ds[i] == ds[..last][i];
      } else if ds[last].number != n {
        var i :| 0 <= i < last && ds[..last][i].number == n;
        assert ds[i].number == n;
      }
    }
  }

  /** A change behind the log leaves it. */
  lemma StillLog(d: seq<Byte>, d': seq<Byte>, es: seq<Entry>)
    requires Rep(d, es) && Outside(d, d', End(es), |d|)
    ensures Rep(d', es)
  {
    WordSame(d, d', End(es), |d|, 0);
    WordSame(d, d', End(es), |d|, 4);
    EntriesKept(d, d', es, End(es), |d|);
  }

  lemma EntriesKept(d: seq<Byte>, d': seq<Byte>, es: seq<Entry>, lo: nat, hi: nat)
    requires EntriesAt(d, es) && Outside(d, d', lo, hi) && (End(es) <= lo || hi <= SB)
    ensures EntriesAt(d', es)
  {
    forall k | 0 <= k < |es|
      ensures EntryThere(d', es, k)
    {
      assert EntryThere(d, es, k);
      StartOrder(es, k, |es|);
      EntrySame(d, d', lo, hi, Start(es, k), es[k]);
    }
  }

  lemma LostHead(d: seq<Byte>, d': seq<Byte>, d'': seq<Byte>, es: seq<Entry>, hi: nat)
    requires Rep(d, es) && Outside(d, d', End(es), hi) && Outside(d', d'', 4, 8) && End(es) + 4 <= |d| && hi >= 8
    requires Word4(d'', 4) == (End(es) + INODE + (DENTRY * -1) % UINT) % UINT
    ensures Lost(d'', es) && Behind(d, d'', hi)
  {
    EntriesKept(d, d', es, End(es), hi);
    EntriesKept(d', d'', es, 4, 8);
    OutsideBehind(d, d', End(es), hi);
    OutsideBehind(d', d'', 4, 8);
    BehindMore(d', d'', 8, hi);
    BehindTwice(d, d', d'', hi, hi);
  }

  lemma DeletedOther(es: seq<Entry>, n: nat, p: nat)
    requires p < |es| && es[p].inode.number != n
    ensures Deleted(es, n)[p] == es[p] && Start(Deleted(es, n), p) == Start(es, p)
  {
    assert Deletes(es[p], n, Deleted(es, n)[p]);
    forall j | 0 <= j < p
      ensures |es[j].data| == |Deleted(es, n)[j].data|
    {
      assert Deletes(es[j], n, Deleted(es, n)[j]);
    }
    StartSame(es, Deleted(es, n), p);
  }

  /** wfs_unlink. The kernel passes a path whose parent it has looked up and found to be a directory;
      ok is false where a store runs past the image. */
  method Unlink(img: Image, path: seq<Byte>, m: Meta) returns (ok: bool, r: int)
    requires img.Valid() && CPath(path)
    requires var p := Lookup(img.es, Tokens(Parent(path))); p >= 0 ==> IsDir(img.es[p])
    modifies img`es, img.data
    ensures Unlinked(old(img.es), old(img.data[..]), path, ok, r, img.es, img.data[..])
    ensures |img.es| > |old(img.es)| ==>
              var p := old(Lookup(img.es, Tokens(Parent(path))));
              p >= 0 && Rewritten(old(img.es)[p], img.es[|old(img.es)|], m)
  {
    var entry := FindByPath(img, path);
    if entry == -1 {
      return true, -ENOENT;
    }
    ghost var l := Lookup(img.es, Tokens(path));
    var n, _, mode, _ := img.Header(entry, l);
    if mode / 0x1000 % 0x10 == 4 {
      return true, -EISDIR;
    }
    var dir, _ := Separate(path);
    ParentPath(path);
    var parent := FindByPath(img, dir);
    if parent == -1 {
      return true, -ENOENT;
    }
    ok, r := UnlinkIn(img, parent, Lookup(img.es, Tokens(dir)), n, m);
  }
}
