/** The path parsers of `fuse/blkfs.c`: a tokenizer decides whether a path is mapped and where to, a
    slash counter decides which image file it lies in. */
module MappedPaths {

  // ----- The tokenizer

  function SegmentLength(s: string): (n: nat)
    ensures n <= |s| && '/' !in s[..n] && (n < |s| ==> s[n] == '/')
  {
    if s == "" || s[0] == '/' then 0 else 1 + SegmentLength(s[1..])
  }

  /** The components of a path: what lies between slashes, empty components left out. */
  function Tokens(s: string): seq<string> {
    if s == "" then []
    else if s[0] == '/' then Tokens(s[1..])
    else
      var n := SegmentLength(s);
      [s[..n]] + Tokens(s[n..])
  }

  datatype Token = NoToken | Token(text: string, save: string)

  function SkipSlashes(s: string): (r: string)
    ensures |r| <= |s| && (r != "" ==> r[0] != '/')
  {
    if s != "" && s[0] == '/' then SkipSlashes(s[1..]) else s
  }

  /** `strtok_r` with delimiter "/": the token, and the text after the delimiter that ended it. */
  function StrTok(s: string): (t: Token)
    ensures t.Token? ==> |t.save| < |s|
  {
    var r := SkipSlashes(s);
    if r == "" then NoToken
    else
      var n := SegmentLength(r);
      Token(r[..n], if n == |r| then "" else r[n + 1..])
  }

  lemma {:induction false} StrTokIsFirstToken(s: string)
    ensures Tokens(s) == match StrTok(s)
                         case NoToken => []
                         case Token(t, save) => [t] + Tokens(save)
  {
    if s != "" && s[0] == '/' {
      StrTokIsFirstToken(s[1..]);
      assert StrTok(s) == StrTok(s[1..]);
    }
  }

  predicate IsComponent(t: string) {
    t != "" && '/' !in t
  }

  lemma {:induction false} TokensAreComponents(s: string)
    ensures forall i :: 0 <= i < |Tokens(s)| ==> IsComponent(Tokens(s)[i])
  {
    if s != "" {
      if s[0] == '/' {
        TokensAreComponents(s[1..]);
      } else {
        TokensAreComponents(s[SegmentLength(s)..]);
      }
    }
  }

  predicate IsDigit(c: char) {
    '0' <= c <= '9'
  }

  lemma TheDigits(c: char)
    ensures IsDigit(c) <==> c in "0123456789"
  {
    assert "0123456789"[0] == '0' && "0123456789"[1] == '1' && "0123456789"[2] == '2' && "0123456789"[3] == '3';
    assert "0123456789"[4] == '4' && "0123456789"[5] == '5' && "0123456789"[6] == '6' && "0123456789"[7] == '7';
    assert "0123456789"[8] == '8' && "0123456789"[9] == '9';
  }

  predicate AllDigits(s: string) {
    forall i :: 0 <= i < |s| ==> IsDigit(s[i])
  }

  predicate Mapped(path: string) {
    |Tokens(path)| >= 4 && AllDigits(Tokens(path)[3])
  }

  /** `blkfs_is_mapped_dir`. */
  method IsMappedDir(path2: string) returns (yes: bool)
    ensures yes == Mapped(path2)
  {
    var tokin := StrTok(path2);
    var diskOffset: Token := NoToken;
    var count := 1;
    ghost var all := Tokens(path2);
    ghost var left := path2;
    while tokin.Token?
      invariant 1 <= count <= |all| + 1
      invariant tokin == StrTok(left) && Tokens(left) == all[count - 1..]
      invariant diskOffset.Token? <==> count > 4
      invariant count > 4 ==> diskOffset.text == all[3]
      decreases |left|
    {
      StrTokIsFirstToken(left);
      assert all[count - 1..][0] == tokin.text;
      assert all[count - 1..][1..] == all[count..];
      if count == 4 {
        diskOffset := tokin;
      }
      left := tokin.save;
      tokin := StrTok(tokin.save);
      count := count + 1;
    }
    StrTokIsFirstToken(left);
    if count <= 4 {
      return false;
    }
    var x := 0;
    while x < |diskOffset.text|
      invariant x <= |all[3]| && AllDigits(all[3][..x])
    {
      if !IsDigit(diskOffset.text[x]) {
        return false;
      }
      x := x + 1;
    }
    assert all[3][..x] == all[3];
    return true;
  }

  // ----- The slash counter

  function SlashCount(s: string): nat {
    if s == "" then 0 else (if s[0] == '/' then 1 else 0) + SlashCount(s[1..])
  }

  /** Where the slash with number `n` is, counting from 0; -1 if there is none. */
  function NthSlash(s: string, n: nat): int {
    if s == "" then -1
    else if s[0] == '/' && n == 0 then 0
    else
      var k := NthSlash(s[1..], if s[0] == '/' then n - 1 else n);
      if k < 0 then -1 else k + 1
  }

  lemma {:induction false} NthSlashFinds(s: string, n: nat)
    ensures NthSlash(s, n) == -1 <==> SlashCount(s) <= n
    ensures SlashCount(s) > n ==>
              && 0 <= NthSlash(s, n) < |s| && s[NthSlash(s, n)] == '/'
              && SlashCount(s[..NthSlash(s, n)]) == n
              && NthSlash(s[NthSlash(s, n) + 1..], 0) == (if NthSlash(s, n + 1) < 0 then -1
                                                          else NthSlash(s, n + 1) - NthSlash(s, n) - 1)
  {
    if s != "" {
      var m := if s[0] == '/' then n - 1 else n;
      if s[0] == '/' && n == 0 {
        assert s[..0] == "";
      } else {
        NthSlashFinds(s[1..], m);
        var k := NthSlash(s[1..], m);
        if k >= 0 {
          assert s[..k + 1][1..] == s[1..][..k];
          assert s[k + 2..] == s[1..][k + 1..];
        }
      }
    }
  }

  /** `strchr(s + from, '/')`, as an offset from `s`; -1 for a null result. */
  function StrChr(s: string, from: nat): int
    requires from <= |s|
  {
    var k := NthSlash(s[from..], 0);
    if k < 0 then -1 else from + k
  }

  lemma FirstSlash(c: string)
    ensures StrChr(c, 0) == NthSlash(c, 0)
  {
    assert c[0..] == c;
  }

  lemma HasSlash(c: string, n: nat)
    ensures -1 <= NthSlash(c, n) < |c| && (NthSlash(c, n) == -1 <==> SlashCount(c) <= n)
  {
    NthSlashFinds(c, n);
  }

  lemma NextSlash(c: string, n: nat)
    requires n < SlashCount(c)
    ensures 0 <= NthSlash(c, n) < |c| && StrChr(c, NthSlash(c, n) + 1) == NthSlash(c, n + 1)
  {
    NthSlashFinds(c, n);
    NthSlashFinds(c, n + 1);
  }

  /** `blkfs_count_slashes`: the offset is set when slash number `offsetForSlash` is reached, and then
      to the slash after that one. */
  method CountSlashes(c: string, offsetForSlash: nat) returns (slashCount: nat, offset: int)
    ensures slashCount == SlashCount(c)
    ensures offset == if 0 < offsetForSlash <= SlashCount(c) then NthSlash(c, offsetForSlash) else 0
  {
    slashCount, offset := 0, 0;
    FirstSlash(c);
    var pch := StrChr(c, 0);
    HasSlash(c, 0);
    while pch != -1
      invariant slashCount <= SlashCount(c)
      invariant pch == NthSlash(c, slashCount) && (pch == -1 <==> slashCount == SlashCount(c))
      invariant offset == if 0 < offsetForSlash <= slashCount then NthSlash(c, offsetForSlash) else 0
      decreases SlashCount(c) - slashCount
    {
      NextSlash(c, slashCount);
      slashCount := slashCount + 1;
      pch := StrChr(c, pch + 1);
      if slashCount == offsetForSlash {
        offset := pch;
      }
      HasSlash(c, slashCount);
    }
  }

  datatype Option<T> = None | Some(value: T)

  function Resolve(path: string): Option<string> {
    if SlashCount(path) <= 4 then None
    else
      NthSlashFinds(path, 4);
      Some(path[..NthSlash(path, 4)] + ".rnd")
  }

  /** `blkfs_resolve_img_location`. */
  method ResolveImgLocation(path2: string) returns (loc: Option<string>)
    ensures loc == Resolve(path2)
  {
    var slashCount, offset := CountSlashes(path2, 4);
    if slashCount <= 4 {
      return None;
    }
    NthSlashFinds(path2, 4);
    return Some(path2[..offset] + ".rnd");
  }

  lemma {:induction false} SlashesCounted(s: string)
    ensures SlashCount(s) == multiset(s)['/']
  {
    if s != "" {
      SlashesCounted(s[1..]);
      assert s == [s[0]] + s[1..];
    }
  }

  lemma {:induction false} FifthSlash(s: string, n: nat, k: nat)
    requires k < |s| && s[k] == '/' && SlashCount(s[..k]) == n
    ensures NthSlash(s, n) == k && SlashCount(s) > n
  {
    if k > 0 {
      assert s[1..][..k - 1] == s[..k][1..];
      FifthSlash(s[1..], if s[0] == '/' then n - 1 else n, k - 1);
    }
  }

  /** A path has an image file if and only if it has five slashes or more, and then it is what is before the fifth
      slash with ".rnd". */
  lemma ResolvesWithFiveSlashes(path: string, k: nat)
    ensures Resolve(path).Some? <==> multiset(path)['/'] >= 5
    ensures k < |path| && path[k] == '/' && multiset(path[..k])['/'] == 4 ==> Resolve(path) == Some(path[..k] + ".rnd")
  {
    SlashesCounted(path);
    if k < |path| && path[k] == '/' && multiset(path[..k])['/'] == 4 {
      SlashesCounted(path[..k]);
      FifthSlash(path, 4, k);
    }
  }

  // ----- Do the two parsers agree?

  function Join(ts: seq<string>): string {
    if ts == [] then "" else "/" + ts[0] + Join(ts[1..])
  }

  /** `s` begins with `n` non-empty components, each after exactly one slash, and then another slash. */
  predicate Clean(s: string, n: nat) {
    && s != "" && s[0] == '/'
    && (n > 0 ==> var k := SegmentLength(s[1..]); k > 0 && Clean(s[1 + k..], n - 1))
  }

  lemma {:induction false} NthSlashSkipsSegment(s: string, n: nat)
    ensures var k := SegmentLength(s);
            NthSlash(s, n) == if NthSlash(s[k..], n) < 0 then -1 else k + NthSlash(s[k..], n)
  {
    var k := SegmentLength(s);
    if k > 0 {
      NthSlashSkipsSegment(s[1..], n);
      assert s[1..][k - 1..] == s[k..];
    } else {
      assert s[0..] == s;
      NthSlashFinds(s, n);
    }
  }

  lemma FirstOfClean(s: string, n: nat)
    requires n > 0 && Clean(s, n)
    ensures var k := SegmentLength(s[1..]);
            var r := s[1 + k..];
            && Tokens(s) == [s[1..][..k]] + Tokens(r)
            && NthSlash(s, n) == (if NthSlash(r, n - 1) < 0 then -1 else 1 + k + NthSlash(r, n - 1))
  {
    var k := SegmentLength(s[1..]);
    assert s[1..][k..] == s[1 + k..];
    NthSlashSkipsSegment(s[1..], n - 1);
    assert Tokens(s) == Tokens(s[1..]);
  }

  lemma JoinCons(t: string, ts: seq<string>, n: nat)
    requires n <= |ts|
    ensures Join(([t] + ts)[..n + 1]) == "/" + t + Join(ts[..n])
  {
    assert ([t] + ts)[..n + 1] == [t] + ts[..n];
    assert ([t] + ts[..n])[1..] == ts[..n];
  }

  lemma Unsliced(s: string, k: nat, e: nat)
    requires 1 + k + e <= |s| && s[0] == '/'
    ensures "/" + s[1..][..k] + s[1 + k..][..e] == s[..1 + k + e]
  {}

  ghost predicate TokensJoin(s: string, n: nat) {
    && |Tokens(s)| >= n && 0 <= NthSlash(s, n) < |s|
    && Join(Tokens(s)[..n]) == s[..NthSlash(s, n)]
  }

  lemma {:induction false} CleanTokens(s: string, n: nat)
    requires Clean(s, n)
    ensures TokensJoin(s, n)
    decreases n
  {
    if n > 0 {
      CleanTokens(s[1 + SegmentLength(s[1..])..], n - 1);
      TokensJoinOneMore(s, n);
    } else {
      assert Tokens(s)[..0] == [] && s[..0] == "";
    }
  }

  lemma TokensJoinOneMore(s: string, n: nat)
    requires n > 0 && Clean(s, n) && TokensJoin(s[1 + SegmentLength(s[1..])..], n - 1)
    ensures TokensJoin(s, n)
  {
    var k := SegmentLength(s[1..]);
    var r := s[1 + k..];
    FirstOfClean(s, n);
    JoinOneMore(s, k, NthSlash(r, n - 1), Tokens(s), Tokens(r), n);
  }

  lemma JoinOneMore(s: string, k: nat, e: nat, ts: seq<string>, rs: seq<string>, n: nat)
    requires 1 + k + e <= |s| && s[0] == '/' && 0 < n <= |rs| + 1
    requires ts == [s[1..][..k]] + rs && Join(rs[..n - 1]) == s[1 + k..][..e]
    ensures Join(ts[..n]) == s[..1 + k + e]
  {
    JoinCons(s[1..][..k], rs, n - 1);
    Unsliced(s, k, e);
  }

  lemma FirstJoined(s: string, e: nat, t: string, j: string)
    requires e < |s| && s[e] == '/' && s[..e] == "/" + t + j
    requires IsComponent(t) && (j != "" ==> j[0] == '/')
    ensures s[0] == '/' && SegmentLength(s[1..]) == |t| && s[1 + |t|..][..e - 1 - |t|] == j
  {
    assert s[..e][..1 + |t|] == "/" + t;
    assert s[..e][1 + |t|..] == j;
    assert s[1..][..|t|] == s[..e][1..1 + |t|] == t;
    assert s[1 + |t|] == '/';
    SegmentIs(s[1..], t);
  }

  lemma {:induction false} JoinedIsClean(s: string, ts: seq<string>)
    requires forall i :: 0 <= i < |ts| ==> IsComponent(ts[i])
    requires 0 <= NthSlash(s, |ts|) < |s| && s[..NthSlash(s, |ts|)] == Join(ts)
    ensures Clean(s, |ts|)
    decreases |ts|
  {
    var e := NthSlash(s, |ts|);
    NthSlashFinds(s, |ts|);
    if ts != [] {
      var t := ts[0];
      assert Join(ts) == "/" + t + Join(ts[1..]);
      FirstJoined(s, e, t, Join(ts[1..]));
      NthSlashSkipsSegment(s[1..], |ts| - 1);
      assert s[1..][|t|..] == s[1 + |t|..];
      JoinedIsClean(s[1 + |t|..], ts[1..]);
    }
  }

  lemma {:induction false} SegmentIs(s: string, t: string)
    requires '/' !in t && |t| <= |s| && s[..|t|] == t
    requires |t| < |s| ==> s[|t|] == '/'
    ensures SegmentLength(s) == |t|
  {
    if t != "" {
      assert s[0] == t[0] && s[0] in t;
      assert s[1..][..|t| - 1] == s[..|t|][1..] == t[1..];
      SegmentIs(s[1..], t[1..]);
    }
  }

  /** Agreement theorem. The slash counter and the tokenizer agree on the image file, which then is the
      first four components plus ".rnd", if and only if the path begins with four non-empty components, each
      after exactly one slash, and a fifth slash. */
  lemma ParsersAgree(path: string)
    ensures (|Tokens(path)| >= 4 && Resolve(path) == Some(Join(Tokens(path)[..4]) + ".rnd"))
       <==> Clean(path, 4)
  {
    if Clean(path, 4) {
      CleanTokens(path, 4);
      NthSlashFinds(path, 4);
    } else if |Tokens(path)| >= 4 && Resolve(path) == Some(Join(Tokens(path)[..4]) + ".rnd") {
      NthSlashFinds(path, 4);
      var p, j := path[..NthSlash(path, 4)], Join(Tokens(path)[..4]);
      assert p == (p + ".rnd")[..|p|] && |p| == |j|;
      assert j == (j + ".rnd")[..|j|];
      TokensAreComponents(path);
      JoinedIsClean(path, Tokens(path)[..4]);
    }
  }

  /** A path with four slashes, the one that readdir retries: with "/p0" appended it resolves to the
      path plus ".rnd". */
  lemma RetryResolves(path: string)
    requires SlashCount(path) == 4
    ensures Resolve(path + "/p0") == Some(path + ".rnd")
  {
    SlashAfter(path, "/p0", 4);
    assert (path + "/p0")[..|path|] == path;
    NthSlashFinds(path + "/p0", 4);
  }

  lemma {:induction false} SlashAfter(s: string, tail: string, n: nat)
    requires SlashCount(s) == n && tail != "" && tail[0] == '/'
    ensures NthSlash(s + tail, n) == |s|
  {
    if s == "" {
      assert s + tail == tail;
    } else {
      assert (s + tail)[1..] == s[1..] + tail;
      SlashAfter(s[1..], tail, if s[0] == '/' then n - 1 else n);
    }
  }

  lemma {:induction false} TokenBound(s: string)
    ensures |Tokens(s)| <= SlashCount(s) + (if s != "" && s[0] != '/' then 1 else 0)
  {
    if s != "" {
      if s[0] == '/' {
        TokenBound(s[1..]);
      } else {
        var n := SegmentLength(s);
        TokenBound(s[n..]);
        SegmentHasNoSlash(s, n);
      }
    }
  }

  lemma {:induction false} SegmentHasNoSlash(s: string, n: nat)
    requires n <= |s| && '/' !in s[..n]
    ensures SlashCount(s) == SlashCount(s[n..])
  {
    if n > 0 {
      assert s[0] in s[..n];
      assert s[1..][..n - 1] == s[..n][1..];
      SegmentHasNoSlash(s[1..], n - 1);
      assert s[1..][n - 1..] == s[n..];
    } else {
      assert s[0..] == s;
    }
  }

  lemma {:induction false} SlashCountAppend(a: string, b: string)
    ensures SlashCount(a + b) == SlashCount(a) + SlashCount(b)
  {
    if a == "" {
      assert a + b == b;
    } else {
      assert (a + b)[1..] == a[1..] + b;
      SlashCountAppend(a[1..], b);
    }
  }

  /** What follows the last slash ends the last component. */
  lemma {:induction false} LastToken(p: string, tail: string)
    requires IsComponent(tail)
    ensures var ts := Tokens(p + tail);
            ts != [] && |ts[|ts| - 1]| >= |tail| && ts[|ts| - 1][|ts[|ts| - 1]| - |tail|..] == tail
    decreases |p|
  {
    var s := p + tail;
    var n := SegmentLength(s);
    if p != "" && p[0] == '/' {
      assert s[1..] == p[1..] + tail;
      LastToken(p[1..], tail);
    } else if n < |p| {
      assert s[n..] == p[n..] + tail;
      LastToken(p[n..], tail);
    } else {
      OneComponent(p, tail);
      assert s[|p|..] == tail;
    }
  }

  lemma OneComponent(p: string, tail: string)
    requires IsComponent(tail) && SegmentLength(p + tail) >= |p|
    ensures Tokens(p + tail) == [p + tail]
  {
    var s := p + tail;
    assert p == s[..SegmentLength(s)][..|p|];
    assert s[..|s|] == s;
    SegmentIs(s, s);
    assert s[|s|..] == "";
    assert s[0] != '/';
  }

  /** An image file of an absolute path is never itself taken for a mapped path. */
  lemma ImageIsNotMapped(path: string)
    requires path != "" && path[0] == '/' && Resolve(path).Some?
    ensures !Mapped(Resolve(path).value)
  {
    NthSlashFinds(path, 4);
    var p := path[..NthSlash(path, 4)];
    var r := p + ".rnd";
    SlashCountAppend(p, ".rnd");
    assert SlashCount(".rnd") == 0;
    assert r[0] == path[0] by {
      assert |p| > 0;
    }
    TokenBound(r);
    LastToken(p, ".rnd");
    var ts := Tokens(r);
    if |ts| >= 4 {
      var last := ts[3];
      assert last[|last| - 4] == last[|last| - 4..][0] == '.';
      assert !IsDigit(last[|last| - 4]);
    }
  }

  // ----- Where a mapped path leads

  const VAULT_DIGITS: nat := 10

  function LeadingDigits(t: string, max: nat): (d: string)
    ensures |d| <= max && d <= t && AllDigits(d)
    decreases max
  {
    if max == 0 || t == "" || !IsDigit(t[0]) then "" else [t[0]] + LeadingDigits(t[1..], max - 1)
  }

  function Vault(vm: string): string {
    LeadingDigits(vm, VAULT_DIGITS)
  }

  lemma {:induction false} LeadingDigitsEnd(t: string, max: nat)
    ensures var d := LeadingDigits(t, max); |d| < max && |d| < |t| ==> !IsDigit(t[|d|])
    decreases max
  {
    if max > 0 && t != "" && IsDigit(t[0]) {
      LeadingDigitsEnd(t[1..], max - 1);
    }
  }

  /** The vault is the longest run of at most ten digits that the component begins with. */
  lemma VaultIsDigits(vm: string)
    ensures var d := Vault(vm);
            && |d| <= 10 && d <= vm && AllDigits(d)
            && (|d| < 10 && |d| < |vm| ==> !IsDigit(vm[|d|]))
  {
    LeadingDigitsEnd(vm, VAULT_DIGITS);
  }

  /** The string that `blkfs_get_mapped_path` writes to its stream, which stops early when the path has
      too few components. */
  function Build(path: string): string {
    match StrTok(path)
    case NoToken => ""
    case Token(site, save) => "/mnt/flr/" + (site + "_" + BuildVault(save))
  }

  function BuildVault(s: string): string {
    match StrTok(s)
    case NoToken => ""
    case Token(vm, save) => Vault(vm) + BuildVersion(save)
  }

  function BuildVersion(s: string): string {
    match StrTok(s)
    case NoToken => ""
    case Token(version, save) => "_" + (version + "_" + BuildDisk(save))
  }

  function BuildDisk(s: string): string {
    match StrTok(s)
    case NoToken => ""
    case Token(disk, save) => disk + BuildTail(save)
  }

  function BuildTail(save: string): string {
    if save == "" then "" else "/" + save
  }

  method CopyVault(stream: string, vm: string) returns (longer: string)
    ensures longer == stream + Vault(vm)
  {
    longer := stream;
    var x := 0;
    while x < VAULT_DIGITS && x < |vm| && IsDigit(vm[x])
      invariant x <= VAULT_DIGITS && x <= |vm|
      invariant longer + LeadingDigits(vm[x..], VAULT_DIGITS - x) == stream + Vault(vm)
    {
      OneMoreDigit(longer, vm, x, VAULT_DIGITS - x);
      longer := longer + [vm[x]];
      x := x + 1;
    }
    NoMoreDigits(longer, vm[x..], VAULT_DIGITS - x);
  }

  lemma OneMoreDigit(longer: string, vm: string, x: nat, max: nat)
    requires x < |vm| && max > 0 && IsDigit(vm[x])
    ensures longer + LeadingDigits(vm[x..], max) == (longer + [vm[x]]) + LeadingDigits(vm[x + 1..], max - 1)
  {
    assert vm[x..][1..] == vm[x + 1..];
    Regroup(longer, [vm[x]], LeadingDigits(vm[x + 1..], max - 1));
  }

  lemma NoMoreDigits(longer: string, t: string, max: nat)
    requires max == 0 || t == "" || !IsDigit(t[0])
    ensures longer + LeadingDigits(t, max) == longer
  {}

  /** The version, the disk and what is left, behind the vault number. */
  method AppendVersionAndDisk(stream: string, save: string) returns (longer: string)
    ensures longer == stream + BuildVersion(save)
  {
    Regroup(stream, "", "");
    var version := StrTok(save);
    if version.NoToken? {
      return stream;
    }
    longer := stream + "_" + version.text + "_";
    ghost var soFar := longer;
    Regroup4(stream, "_", version.text, "_", BuildDisk(version.save));
    var disk := StrTok(version.save);
    if disk.NoToken? {
      Regroup(longer, "", "");
      return;
    }
    longer := longer + disk.text;
    Regroup(soFar, disk.text, BuildTail(disk.save));
    if disk.save != "" {
      longer := longer + "/" + disk.save;
      Regroup(soFar + disk.text, "/", disk.save);
    } else {
      Regroup(soFar + disk.text, "", "");
    }
  }

  method BuildMappedPath(path2: string) returns (stream: string)
    ensures stream == Build(path2)
  {
    stream := "";
    var tokin := StrTok(path2);
    if tokin.NoToken? {
      return;
    }
    stream := stream + "/mnt/flr/" + tokin.text + "_";
    ghost var site := stream;
    SiteFirst(tokin.text, BuildVault(tokin.save));
    tokin := StrTok(tokin.save);
    if tokin.NoToken? {
      Regroup(site, "", "");
      return;
    }
    Regroup(site, Vault(tokin.text), BuildVersion(tokin.save));
    stream := CopyVault(stream, tokin.text);
    stream := AppendVersionAndDisk(stream, tokin.save);
  }

  lemma SiteFirst(site: string, rest: string)
    ensures "" + "/mnt/flr/" + site + "_" + rest == "/mnt/flr/" + (site + "_" + rest)
  {}

  lemma Regroup4(a: string, b: string, c: string, d: string, e: string)
    ensures a + b + c + d + e == a + (b + (c + d + e))
  {}

  lemma Regroup(a: string, b: string, c: string)
    ensures a + b + c == a + (b + c)
    ensures a + "" == a
  {}

  /** What a mapped path is about. The vault is the number the VM's component begins with. */
  datatype Key = Key(site: string, vault: string, version: string, disk: string, tail: string)

  /** The text after the first `n` components and the slash that ends the last of them. */
  function Remainder(path: string, n: nat): string
    decreases n
  {
    if n == 0 then path
    else
      match StrTok(path)
      case NoToken => ""
      case Token(_, save) => Remainder(save, n - 1)
  }

  function KeyOf(path: string): Key
    requires |Tokens(path)| >= 4
  {
    var ts := Tokens(path);
    Key(ts[0], Vault(ts[1]), ts[2], ts[3], Remainder(path, 4))
  }

  predicate ValidKey(k: Key) {
    && IsComponent(k.site) && IsComponent(k.version) && IsComponent(k.disk)
    && AllDigits(k.vault) && |k.vault| <= VAULT_DIGITS && AllDigits(k.disk)
  }

  function Render(k: Key): string {
    "/mnt/flr/" + (k.site + "_" + AfterSite(k))
  }

  function AfterSite(k: Key): string {
    k.vault + ("_" + (k.version + "_" + (k.disk + BuildTail(k.tail))))
  }

  lemma BuildRendersKey(path: string)
    requires Mapped(path)
    ensures ValidKey(KeyOf(path)) && Build(path) == Render(KeyOf(path))
  {
    TokensAreComponents(path);
    var ts := Tokens(path);
    StrTokIsFirstToken(path);
    var s1 := StrTok(path).save;
    StrTokIsFirstToken(s1);
    var s2 := StrTok(s1).save;
    StrTokIsFirstToken(s2);
    var s3 := StrTok(s2).save;
    StrTokIsFirstToken(s3);
    assert ts[1..] == Tokens(s1) && ts[1..][1..] == Tokens(s2) && ts[1..][1..][1..] == Tokens(s3);
    assert Remainder(path, 4) == Remainder(s1, 3) == Remainder(s2, 2) == Remainder(s3, 1) == StrTok(s3).save;
  }

  lemma NextToken(s: string)
    ensures Tokens(s) == [] <==> StrTok(s).NoToken?
    ensures Tokens(s) != [] ==> StrTok(s).text == Tokens(s)[0] && Tokens(StrTok(s).save) == Tokens(s)[1..]
  {
    StrTokIsFirstToken(s);
  }

  lemma VersionBreaksOff(s: string)
    ensures |Tokens(s)| == 0 ==> BuildVersion(s) == ""
    ensures |Tokens(s)| == 1 ==> BuildVersion(s) == "_" + Tokens(s)[0] + "_"
  {
    NextToken(s);
    if |Tokens(s)| == 1 {
      NextToken(StrTok(s).save);
      Regroup("_", Tokens(s)[0], "_");
      Regroup("_", "", "");
    }
  }

  lemma VaultBreaksOff(s: string)
    ensures |Tokens(s)| == 0 ==> BuildVault(s) == ""
    ensures |Tokens(s)| == 1 ==> BuildVault(s) == Vault(Tokens(s)[0])
    ensures |Tokens(s)| == 2 ==> BuildVault(s) == Vault(Tokens(s)[0]) + ("_" + Tokens(s)[1] + "_")
  {
    NextToken(s);
    if |Tokens(s)| > 0 {
      VersionBreaksOff(StrTok(s).save);
      Regroup(Vault(Tokens(s)[0]), "", "");
    }
  }

  /** What a path with fewer than four components leads to: the text breaks off behind the last of them. */
  lemma BuildBreaksOff(path: string)
    ensures var ts := Tokens(path);
            && (|ts| == 0 ==> Build(path) == "")
            && (|ts| == 1 ==> Build(path) == "/mnt/flr/" + (ts[0] + "_"))
            && (|ts| == 2 ==> Build(path) == "/mnt/flr/" + (ts[0] + "_" + Vault(ts[1])))
            && (|ts| == 3 ==> Build(path) == "/mnt/flr/" + (ts[0] + "_" + (Vault(ts[1]) + ("_" + ts[2] + "_"))))
  {
    NextToken(path);
    if |Tokens(path)| > 0 {
      VaultBreaksOff(StrTok(path).save);
      Regroup(Tokens(path)[0] + "_", "", "");
    }
  }

  /** A site name that can be read as another site followed by "_" and a vault number: what is before one of
      its underscores is not empty, and after it come at most ten digits and the end or another underscore. */
  predicate SplitsAt(site: string, k: nat, m: nat) {
    && 0 < k < |site| && site[k] == '_' && m <= VAULT_DIGITS && k + 1 + m <= |site|
    && AllDigits(site[k + 1..k + 1 + m])
    && (k + 1 + m < |site| ==> site[k + 1 + m] == '_')
  }

  ghost predicate Ambiguous(site: string) {
    exists k, m :: SplitsAt(site, k, m)
  }

  lemma NoUnderscoreIsClear(site: string)
    requires '_' !in site
    ensures !Ambiguous(site)
  {}

  function First(s: string, c: char): (n: nat)
    ensures n <= |s|
  {
    if s == "" || s[0] == c then 0 else 1 + First(s[1..], c)
  }

  lemma {:induction false} FirstAfter(a: string, x: string, c: char)
    requires c !in a && (x != "" ==> x[0] == c)
    ensures First(a + x, c) == |a|
  {
    if a == "" {
      assert a + x == x;
    } else {
      assert a[0] in a && (a + x)[1..] == a[1..] + x;
      FirstAfter(a[1..], x, c);
    }
  }

  /** Strings that agree are cut alike at the first occurrence of `c`. */
  lemma CutAtFirst(a: string, x: string, b: string, y: string, c: char)
    requires c !in a && c !in b && (x != "" ==> x[0] == c) && (y != "" ==> y[0] == c)
    requires a + x == b + y
    ensures a == b && x == y
  {
    FirstAfter(a, x, c);
    FirstAfter(b, y, c);
    assert a == (a + x)[..|a|] && b == (b + y)[..|b|];
    assert x == (a + x)[|a|..] && y == (b + y)[|b|..];
  }

  /** How many characters follow the last `c`. */
  function AfterLast(s: string, c: char): nat {
    if s == "" || s[|s| - 1] == c then 0 else 1 + AfterLast(s[..|s| - 1], c)
  }

  lemma {:induction false} LastBefore(a: string, x: string, c: char)
    requires c !in x
    ensures AfterLast(a + [c] + x, c) == |x|
    decreases |x|
  {
    if x == "" {
      assert a + [c] + x == a + [c];
    } else {
      var y := x[..|x| - 1];
      assert x[|x| - 1] in x && (a + [c] + x)[..|a| + |x|] == a + [c] + y;
      LastBefore(a, y, c);
    }
  }

  /** And at the last. */
  lemma CutAtLast(a: string, x: string, b: string, y: string, c: char)
    requires c !in x && c !in y && a + [c] + x == b + [c] + y
    ensures a == b && x == y
  {
    LastBefore(a, x, c);
    LastBefore(b, y, c);
    assert a == (a + [c] + x)[..|a|] && b == (b + [c] + y)[..|b|];
    assert x == (a + [c] + x)[|a| + 1..] && y == (b + [c] + y)[|b| + 1..];
  }

  lemma DigitsHaveNone(s: string, c: char)
    requires AllDigits(s) && !IsDigit(c)
    ensures c !in s
  {}

  /** The part of the string after the site determines everything else. */
  lemma AfterSiteDetermines(a: Key, b: Key)
    requires ValidKey(a) && ValidKey(b) && AfterSite(a) == AfterSite(b)
    ensures a.(site := b.site) == b
  {
    DigitsHaveNone(a.vault, '_');
    DigitsHaveNone(b.vault, '_');
    var ra, rb := a.version + "_" + (a.disk + BuildTail(a.tail)), b.version + "_" + (b.disk + BuildTail(b.tail));
    CutAtFirst(a.vault, "_" + ra, b.vault, "_" + rb, '_');
    assert ra == ("_" + ra)[1..] && rb == ("_" + rb)[1..];
    DigitsHaveNone(a.disk, '_');
    DigitsHaveNone(b.disk, '_');
    var da, db := a.version + "_" + a.disk, b.version + "_" + b.disk;
    assert ra == da + BuildTail(a.tail) && rb == db + BuildTail(b.tail);
    CutAtFirst(da, BuildTail(a.tail), db, BuildTail(b.tail), '/');
    CutAtLast(a.version, a.disk, b.version, b.disk, '_');
    assert a.tail == (if a.tail == "" then "" else BuildTail(a.tail)[1..]);
    assert b.tail == (if b.tail == "" then "" else BuildTail(b.tail)[1..]);
  }

  /** Two keys that render alike: the sites are equal, or the longer one is ambiguous. */
  lemma LongerSiteIsAmbiguous(a: Key, b: Key)
    requires ValidKey(a) && ValidKey(b) && Render(a) == Render(b) && |a.site| <= |b.site|
    ensures a.site == b.site || Ambiguous(b.site)
    ensures a.site == b.site ==> a == b
  {
    SamePrefix("/mnt/flr/", a.site + "_" + AfterSite(a), b.site + "_" + AfterSite(b));
    if |a.site| == |b.site| {
      SameSite(a.site, AfterSite(a), b.site, AfterSite(b));
      AfterSiteDetermines(a, b);
    } else {
      ShorterSite(a.site, AfterSite(a), b.site, AfterSite(b));
      var k, v := |a.site|, a.vault;
      DigitsHaveNone(v, '_');
      VaultFitsIn(v, b.site[k + 1..], AfterSite(a)[|v|..], AfterSite(b));
      assert b.site[k + 1..k + 1 + |v|] == v;
      assert SplitsAt(b.site, k, |v|);
    }
  }

  lemma SamePrefix(p: string, x: string, y: string)
    requires p + x == p + y
    ensures x == y
  {
    assert x == (p + x)[|p|..] && y == (p + y)[|p|..];
  }

  lemma SameSite(u: string, x: string, w: string, y: string)
    requires u + "_" + x == w + "_" + y && |u| == |w|
    ensures u == w && x == y
  {
    assert u == (u + "_" + x)[..|u|] && w == (w + "_" + y)[..|u|];
    assert x == (u + "_" + x)[|u| + 1..] && y == (w + "_" + y)[|u| + 1..];
  }

  lemma ShorterSite(u: string, x: string, w: string, y: string)
    requires u + "_" + x == w + "_" + y && |u| < |w|
    ensures w[..|u|] == u && w[|u|] == '_' && x == w[|u| + 1..] + "_" + y
  {
    var s := u + "_" + x;
    assert u == s[..|u|] && s[|u|] == '_' && x == s[|u| + 1..];
    assert s[..|u|] == w[..|u|] && s[|u|] == w[|u|] && s[|u| + 1..] == w[|u| + 1..] + "_" + y;
  }

  lemma {:induction false} FirstIsFirst(s: string, c: char, i: nat)
    requires i < |s| && s[i] == c
    ensures First(s, c) <= i
  {
    if s[0] != c {
      FirstIsFirst(s[1..], c, i - 1);
    }
  }

  lemma VaultFitsIn(v: string, r: string, x: string, rest: string)
    requires '_' !in v && x != "" && x[0] == '_' && v + x == r + "_" + rest
    ensures |v| <= |r| && r[..|v|] == v && (|v| < |r| ==> r[|v|] == '_')
  {
    var s := v + x;
    FirstAfter(v, x, '_');
    assert s[|r|] == '_';
    FirstIsFirst(s, '_', |r|);
    assert v == s[..|v|] == r[..|v|];
    assert s[|v|] == '_';
  }

  /** Injectivity theorem. Mapped paths whose sites are not ambiguous, as is every site without an
      underscore, lead to the same place if and only if they agree on site, vault number, version,
      disk and remaining tail. */
  lemma MappedPathIsInjective(p: string, q: string)
    requires Mapped(p) && Mapped(q)
    requires !Ambiguous(KeyOf(p).site) && !Ambiguous(KeyOf(q).site)
    ensures Build(p) == Build(q) <==> KeyOf(p) == KeyOf(q)
  {
    BuildRendersKey(p);
    BuildRendersKey(q);
    if Build(p) == Build(q) {
      if |KeyOf(p).site| <= |KeyOf(q).site| {
        LongerSiteIsAmbiguous(KeyOf(p), KeyOf(q));
      } else {
        LongerSiteIsAmbiguous(KeyOf(q), KeyOf(p));
      }
    }
  }

  // ----- Ambiguous sites do collide

  lemma StrTokAtComponent(t: string, rest: string)
    requires IsComponent(t) && (rest != "" ==> rest[0] == '/')
    ensures StrTok(t + rest) == Token(t, if rest == "" then "" else rest[1..])
  {
    assert t[0] in t;
    assert (t + rest)[..|t|] == t;
    SegmentIs(t + rest, t);
    if rest != "" {
      assert (t + rest)[|t| + 1..] == rest[1..];
    }
  }

  lemma StrTokSkips(s: string)
    ensures StrTok("/" + s) == StrTok(s)
  {
    assert ("/" + s)[1..] == s;
  }

  lemma StrTokOfComponent(t: string, rest: string)
    requires IsComponent(t) && (rest != "" ==> rest[0] == '/')
    ensures StrTok(t + rest) == Token(t, if rest == "" then "" else rest[1..])
    ensures StrTok("/" + t + rest) == StrTok(t + rest)
  {
    StrTokAtComponent(t, rest);
    StrTokSkips(t + rest);
    Regroup("/", t, rest);
  }

  function PathOf(site: string, vm: string, version: string, disk: string, tail: string): string {
    "/" + site + ("/" + (vm + ("/" + (version + ("/" + (disk + BuildTail(tail)))))))
  }

  lemma KeyOfPathOf(site: string, vm: string, version: string, disk: string, tail: string)
    requires IsComponent(site) && IsComponent(vm) && IsComponent(version) && IsComponent(disk) && AllDigits(disk)
    ensures var p := PathOf(site, vm, version, disk, tail);
            Mapped(p) && KeyOf(p) == Key(site, Vault(vm), version, disk, tail)
  {
    FirstTwo(site, vm, version + ("/" + (disk + BuildTail(tail))));
    LastTwo(version, disk, tail);
    FourTokens(PathOf(site, vm, version, disk, tail), [site, vm], [version, disk], Tokens(tail));
  }

  lemma FourTokens(p: string, ab: seq<string>, cd: seq<string>, more: seq<string>)
    requires |ab| == |cd| == 2 && Tokens(p) == ab + (cd + more)
    ensures |Tokens(p)| >= 4 && Tokens(p)[..4] == ab + cd
    ensures Tokens(p)[0] == ab[0] && Tokens(p)[1] == ab[1] && Tokens(p)[2] == cd[0] && Tokens(p)[3] == cd[1]
  {}

  lemma FirstTwo(site: string, vm: string, rest: string)
    requires IsComponent(site) && IsComponent(vm)
    ensures var s := "/" + site + ("/" + (vm + ("/" + rest)));
            Tokens(s) == [site, vm] + Tokens(rest) && Remainder(s, 4) == Remainder(rest, 2)
  {
    StrTokOfComponent(site, "/" + (vm + ("/" + rest)));
    StrTokOfComponent(vm, "/" + rest);
    assert ("/" + rest)[1..] == rest;
    TokensOfTwo("/" + site + ("/" + (vm + ("/" + rest))), site, vm + ("/" + rest), vm, rest, 2);
  }

  lemma LastTwo(version: string, disk: string, tail: string)
    requires IsComponent(version) && IsComponent(disk)
    ensures var s := version + ("/" + (disk + BuildTail(tail)));
            Tokens(s) == [version, disk] + Tokens(tail) && Remainder(s, 2) == tail
  {
    var s4 := BuildTail(tail);
    StrTokOfComponent(version, "/" + (disk + s4));
    StrTokOfComponent(disk, s4);
    assert (if s4 == "" then "" else s4[1..]) == tail;
    TokensOfTwo(version + ("/" + (disk + s4)), version, disk + s4, disk, tail, 0);
  }

  lemma TokensOfOne(p: string, a: string, s1: string, n: nat)
    requires StrTok(p) == Token(a, s1)
    ensures Tokens(p) == [a] + Tokens(s1) && Remainder(p, n + 1) == Remainder(s1, n)
  {
    StrTokIsFirstToken(p);
  }

  lemma TokensOfTwo(p: string, a: string, s1: string, b: string, s2: string, n: nat)
    requires StrTok(p) == Token(a, s1) && StrTok(s1) == Token(b, s2)
    ensures Tokens(p) == [a, b] + Tokens(s2) && Remainder(p, n + 2) == Remainder(s2, n)
  {
    TokensOfOne(p, a, s1, n + 1);
    TokensOfOne(s1, b, s2, n);
    TwoInFront(a, b, Tokens(s2));
  }

  lemma TwoInFront(a: string, b: string, ts: seq<string>)
    ensures [a] + ([b] + ts) == [a, b] + ts
  {}

  lemma {:induction false} VaultOfDigits(d: string, max: nat)
    requires AllDigits(d) && |d| <= max
    ensures LeadingDigits(d + "x", max) == d
    decreases |d|
  {
    if d == "" {
      assert d + "x" == "x";
    } else {
      assert (d + "x")[1..] == d[1..] + "x";
      VaultOfDigits(d[1..], max - 1);
    }
  }

  /** What the other reading of an ambiguous site makes of the version. */
  function OtherVersion(k: Key, at: nat, m: nat): string
    requires SplitsAt(k.site, at, m)
  {
    var end := at + 1 + m;
    (if end == |k.site| then "" else k.site[end + 1..] + "_") + k.vault + "_" + k.version
  }

  lemma OtherReading(k: Key, at: nat, m: nat)
    requires ValidKey(k) && SplitsAt(k.site, at, m)
    ensures var j := Key(k.site[..at], k.site[at + 1..at + 1 + m], OtherVersion(k, at, m), k.disk, k.tail);
            Render(j) == Render(k) && IsComponent(j.version) && IsComponent(j.site)
  {
    var end := at + 1 + m;
    var u, d := k.site[..at], k.site[at + 1..end];
    var rest := k.disk + BuildTail(k.tail);
    DigitsHaveNone(k.vault, '/');
    if end == |k.site| {
      assert k.site == u + "_" + d;
      RegroupSite(u, d, k.vault, k.version, rest);
    } else {
      var z := k.site[end + 1..];
      assert k.site == u + "_" + d + "_" + z;
      RegroupLongSite(u, d, z, k.vault, k.version, rest);
    }
  }

  lemma RegroupSite(u: string, d: string, vault: string, version: string, rest: string)
    ensures u + "_" + d + "_" + (vault + ("_" + (version + "_" + rest)))
         == u + "_" + (d + ("_" + ("" + vault + "_" + version + "_" + rest)))
  {}

  lemma RegroupLongSite(u: string, d: string, z: string, vault: string, version: string, rest: string)
    ensures u + "_" + d + "_" + z + "_" + (vault + ("_" + (version + "_" + rest)))
         == u + "_" + (d + ("_" + (z + "_" + vault + "_" + version + "_" + rest)))
  {}

  /** The condition is exact: a mapped path's site is ambiguous if and only if some other mapped path with a
      shorter site leads to the same place. */
  lemma AmbiguousSitesCollide(p: string)
    requires Mapped(p)
    ensures Ambiguous(KeyOf(p).site) <==>
            exists q :: Mapped(q) && |KeyOf(q).site| < |KeyOf(p).site| && Build(q) == Build(p)
  {
    var k := KeyOf(p);
    BuildRendersKey(p);
    if Ambiguous(k.site) {
      var at, m :| SplitsAt(k.site, at, m);
      var q := CollidingPath(k, at, m);
      BuildRendersKey(q);
    }
    forall q | Mapped(q) && |KeyOf(q).site| < |k.site| && Build(q) == Build(p)
      ensures Ambiguous(k.site)
    {
      BuildRendersKey(q);
      LongerSiteIsAmbiguous(KeyOf(q), k);
    }
  }

  lemma CollidingPath(k: Key, at: nat, m: nat) returns (q: string)
    requires ValidKey(k) && SplitsAt(k.site, at, m)
    ensures Mapped(q) && |KeyOf(q).site| < |k.site| && Render(KeyOf(q)) == Render(k)
  {
    OtherReading(k, at, m);
    var d := k.site[at + 1..at + 1 + m];
    DigitsHaveNone(d, '/');
    VaultOfDigits(d, VAULT_DIGITS);
    q := PathOf(k.site[..at], d + "x", OtherVersion(k, at, m), k.disk, k.tail);
    KeyOfPathOf(k.site[..at], d + "x", OtherVersion(k, at, m), k.disk, k.tail);
  }

  /** Site a_12 with vault 7, and site a with vault 12. */
  const LONG_SITE: Key := Key("a_12", "7", "v", "0", "")
  const SHORT_SITE: Key := Key("a", "12", "7_v", "0", "")

  lemma LongRendering()
    ensures Render(LONG_SITE) == "/mnt/flr/" + "a_12_7_v_0"
  {
    assert AfterSite(LONG_SITE) == "7_v_0";
    assert LONG_SITE.site + "_" + AfterSite(LONG_SITE) == "a_12_7_v_0";
  }

  lemma ShortRendering()
    ensures Render(SHORT_SITE) == "/mnt/flr/" + "a_12_7_v_0"
  {
    assert AfterSite(SHORT_SITE) == "12_7_v_0";
    assert SHORT_SITE.site + "_" + AfterSite(SHORT_SITE) == "a_12_7_v_0";
  }

  lemma PathOfKey(k: Key) returns (p: string)
    requires ValidKey(k) && Vault(k.vault) == k.vault && IsComponent(k.vault)
    ensures p == PathOf(k.site, k.vault, k.version, k.disk, k.tail)
    ensures Mapped(p) && KeyOf(p) == k && Build(p) == Render(k)
  {
    p := PathOf(k.site, k.vault, k.version, k.disk, k.tail);
    KeyOfPathOf(k.site, k.vault, k.version, k.disk, k.tail);
    BuildRendersKey(p);
  }

  /** Two mapped paths of different things that lead to the same place. */
  lemma UnderscoreSiteCollides() returns (p: string, q: string)
    ensures Mapped(p) && Mapped(q) && KeyOf(p) == LONG_SITE && KeyOf(q) == SHORT_SITE
    ensures LONG_SITE != SHORT_SITE && Build(p) == Build(q) == "/mnt/flr/" + "a_12_7_v_0"
  {
    SmallVaults();
    LongRendering();
    ShortRendering();
    p := PathOfKey(LONG_SITE);
    q := PathOfKey(SHORT_SITE);
  }

  lemma SmallVaults()
    ensures Vault("7") == "7" && Vault("12") == "12"
  {
    assert "7"[1..] == "" && "12"[1..] == "2" && "2"[1..] == "";
    assert LeadingDigits("", 9) == LeadingDigits("", 8) == "";
    assert LeadingDigits("2", 9) == "2";
  }

  // ----- A doubled slash

  /** An absolute path of four components, and what is behind them, with two slashes after the first one. */
  function DoubledPath(a: string, b: string, v: string, d: string, rest: string): string {
    "/" + (a + ("/" + ("/" + (b + ("/" + (v + ("/" + (d + rest))))))))
  }

  predicate AtSlash(rest: string) {
    rest != "" ==> rest[0] == '/'
  }

  lemma FirstTokenOf(s: string, t: string, rest: string)
    requires IsComponent(t) && s == t + rest && AtSlash(rest)
    ensures Tokens(s) == [t] + Tokens(rest) && SegmentLength(s) == |t|
  {
    assert t[0] in t;
    SegmentIs(s, t);
    assert s[..|t|] == t && s[|t|..] == rest;
  }

  lemma SlashToken(t: string, rest: string)
    requires IsComponent(t) && AtSlash(rest)
    ensures var s := "/" + (t + rest);
            && Tokens(s) == [t] + Tokens(rest) && SlashCount(s) > SlashCount(rest)
            && SegmentLength(s[1..]) == |t| && s[1 + |t|..] == rest
  {
    FirstTokenOf(t + rest, t, rest);
    SlashCountAppend(t, rest);
    assert ("/" + (t + rest))[1..] == t + rest;
  }

  lemma SecondSlash(rest: string)
    requires rest != "" && rest[0] == '/'
    ensures Tokens("/" + rest) == Tokens(rest) && SlashCount("/" + rest) == 1 + SlashCount(rest)
    ensures !Clean("/" + rest, 3)
  {
    assert ("/" + rest)[1..] == rest;
  }

  lemma DoubledPathTokens(a: string, b: string, v: string, d: string, rest: string)
    requires IsComponent(a) && IsComponent(b) && IsComponent(v) && IsComponent(d) && AtSlash(rest)
    ensures var path := DoubledPath(a, b, v, d, rest);
            && Tokens(path) == [a] + ([b] + ([v] + ([d] + Tokens(rest))))
            && SlashCount(path) > 4 && !Clean(path, 4)
  {
    var four := "/" + (d + rest);
    var three := "/" + (v + four);
    var two := "/" + (b + three);
    SlashToken(d, rest);
    SlashToken(v, four);
    SlashToken(b, three);
    SecondSlash(two);
    SlashToken(a, "/" + two);
  }

  lemma UncleanDisagrees(path: string)
    requires |Tokens(path)| >= 4 && SlashCount(path) > 4 && !Clean(path, 4)
    ensures Resolve(path).Some? && Resolve(path) != Some(Join(Tokens(path)[..4]) + ".rnd")
  {
    ParsersAgree(path);
  }

  /** Paths on which the parsers disagree: with the slash after the first component doubled, a path is mapped and
      has an image, but not the one of its four components. */
  lemma DoubledSlashDisagrees(a: string, b: string, v: string, d: string, rest: string)
    requires IsComponent(a) && IsComponent(b) && IsComponent(v) && IsComponent(d) && AllDigits(d) && AtSlash(rest)
    ensures var path := DoubledPath(a, b, v, d, rest);
            && Mapped(path) && Resolve(path).Some? && Tokens(path)[..4] == [a, b, v, d]
            && Resolve(path) != Some(Join([a, b, v, d]) + ".rnd")
  {
    var path := DoubledPath(a, b, v, d, rest);
    DoubledPathTokens(a, b, v, d, rest);
    FourTokens(path, [a, b], [v, d], Tokens(rest));
    UncleanDisagrees(path);
  }
}
