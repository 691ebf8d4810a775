/** Paths: strtok_r and separate_path_and_file of mount.wfs.c. */
module WfsPath {
  import opened Common
  import opened WfsLog

  const MAX_PATH: nat := 128            // MAX_PATH_NAME_LEN

  /** A C string that fits the buffer that its bytes are copied to. */
  predicate CPath(path: seq<Byte>) {
    0 !in path && |path| < MAX_PATH
  }

  function NextSlash(s: seq<Byte>, i: nat): (k: nat)
    requires i <= |s|
    ensures i <= k <= |s| && (forall j | i <= j < k :: s[j] != SLASH) && (k < |s| ==> s[k] == SLASH)
    decreases |s| - i
  {
    if i == |s| || s[i] == SLASH then i else NextSlash(s, i + 1)
  }

  /** The components of a path. */
  function Tokens(s: seq<Byte>): seq<seq<Byte>> {
    if s == [] then []
    else if s[0] == SLASH then Tokens(s[1..])
    else [s[..NextSlash(s, 0)]] + Tokens(s[NextSlash(s, 0)..])
  }

  /** What the last slash separates. */
  function Parent(path: seq<Byte>): seq<Byte> {
    if LastSlash(path) == -1 then [SLASH] else path[..LastSlash(path)]
  }

  function File(path: seq<Byte>): (f: seq<Byte>)
    ensures SLASH !in f
  {
    path[LastSlash(path) + 1..]
  }

  /** strrchr(path, '/') - path, or -1. */
  function LastSlash(path: seq<Byte>): (k: int)
    ensures -1 <= k < |path| && (k >= 0 ==> path[k] == SLASH) && forall j | k < j < |path| :: path[j] != SLASH
  {
    if path == [] then -1
    else if path[|path| - 1] == SLASH then |path| - 1 else LastSlash(path[..|path| - 1])
  }

  lemma {:induction false} TokensOfName(f: seq<Byte>)
    requires SLASH !in f
    ensures Tokens(f) == if f == [] then [] else [f]
  {
    if f != [] {
      assert NextSlash(f, 0) == |f|;
      assert f[..|f|] == f && f[|f|..] == [];
    }
  }

  lemma {:induction false} NextSlashJoin(a: seq<Byte>, f: seq<Byte>)
    ensures NextSlash(a + [SLASH] + f, 0) == NextSlash(a, 0)
  {
    var s, k := a + [SLASH] + f, NextSlash(a, 0);
    assert s[k] == SLASH && forall j | 0 <= j < k :: s[j] == a[j];
    assert forall j | 0 <= j < k :: s[j] != SLASH;
  }

  lemma {:induction false} TokensJoin(a: seq<Byte>, f: seq<Byte>)
    ensures Tokens(a + [SLASH] + f) == Tokens(a) + Tokens(f)
    decreases |a|
  {
    var s := a + [SLASH] + f;
    if a == [] {
      assert s[1..] == f;
    } else if a[0] == SLASH {
      assert s[1..] == a[1..] + [SLASH] + f;
      TokensJoin(a[1..], f);
    } else {
      var k := NextSlash(a, 0);
      NextSlashJoin(a, f);
      assert s[..k] == a[..k] && s[k..] == a[k..] + [SLASH] + f;
      TokensJoin(a[k..], f);
    }
  }

  /** A path names what its last component, if there is one, names in what its parent path names. */
  lemma {:induction false} ParentAndFile(path: seq<Byte>)
    ensures Tokens(path) == Tokens(Parent(path)) + Tokens(File(path))
  {
    if LastSlash(path) >= 0 {
      Joined(path, LastSlash(path));
    } else {
      NoSlash(path);
    }
  }

  lemma {:induction false} Joined(path: seq<Byte>, k: nat)
    requires k < |path| && path[k] == SLASH
    ensures Tokens(path) == Tokens(path[..k]) + Tokens(path[k + 1..])
  {
    Rejoined(path, k);
    TokensJoin(path[..k], path[k + 1..]);
  }

  lemma {:induction false} NoSlash(path: seq<Byte>)
    ensures Tokens(path) == Tokens([SLASH]) + Tokens(path[0..])
  {
    TokensOfSlash();
    assert path[0..] == path;
  }

  lemma {:induction false} TokensOfSlash()
    ensures Tokens([SLASH]) == []
  {
    assert [SLASH][1..] == [];
  }

  lemma {:induction false} Rejoined(path: seq<Byte>, k: nat)
    requires k < |path| && path[k] == SLASH
    ensures path == path[..k] + [SLASH] + path[k + 1..]
  {
  }

  /** strtok_r: the next component and the rest. */
  method Strtok(s: seq<Byte>) returns (ok: bool, token: seq<Byte>, rest: seq<Byte>)
    ensures ok <==> Tokens(s) != []
    ensures ok ==> Tokens(s) == [token] + Tokens(rest)
    ensures forall b | b in token || b in rest :: b in s
  {
    var i := 0;
    while i < |s| && s[i] == SLASH
      invariant 0 <= i <= |s| && Tokens(s) == Tokens(s[i..])
    {
      assert s[i..][1..] == s[i + 1..];
      i := i + 1;
    }
    if i == |s| {
      return false, [], [];
    }
    var j := i;
    while j < |s| && s[j] != SLASH
      invariant i <= j <= |s| && forall l | i <= l < j :: s[l] != SLASH
    {
      j := j + 1;
    }
    ok, token, rest := true, s[i..j], s[j..];
    var u := s[i..];
    assert u[..j - i] == token && u[j - i..] == rest;
    assert u[0] == s[i] && NextSlash(u, 0) == j - i;
  }

  /** separate_path_and_file; file is the name field, cut to 31 bytes. */
  method Separate(path: seq<Byte>) returns (parent: seq<Byte>, file: seq<Byte>)
    requires |path| < MAX_PATH
    ensures parent == Parent(path) && file == FileName(File(path))
  {
    var k := |path| - 1;
    while k >= 0 && path[k] != SLASH
      invariant -1 <= k < |path| && LastSlash(path) <= k
    {
      k := k - 1;
    }
    assert k == LastSlash(path);
    if k >= 0 {
      parent, file := path[..k], FileName(path[k + 1..]);
    } else {
      parent, file := [SLASH], FileName(path);
    }
  }
}
