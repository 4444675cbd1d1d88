/** The small loops over byte strings that registration and lookup are made of. */
module ByteScan {
  import opened Bytes
  import opened Pattern
  import opened RadixTree

  method LongestCommonPrefix(a: string, b: string) returns (i: nat)
    ensures i == CommonPrefix(a, b)
  {
    i := 0;
    var max := if |a| <= |b| then |a| else |b|;
    while i < max && a[i] == b[i]
      invariant i <= max && a[..i] == b[..i]
    {
      i := i + 1;
    }
    CommonPrefixUnique(a, b, i);
  }

  lemma CommonPrefixUnique(a: string, b: string, i: nat)
    requires i <= |a| && i <= |b| && a[..i] == b[..i]
    requires i < |a| && i < |b| ==> a[i] != b[i]
    ensures CommonPrefix(a, b) == i
  {
    var j := CommonPrefix(a, b);
    assert forall k :: 0 <= k < i ==> a[..i][k] == b[..i][k];
    assert forall k :: 0 <= k < j ==> a[..j][k] == b[..j][k];
  }

  method IndexByte(s: string, c: char) returns (k: nat)
    ensures k == IndexOf(s, c)
  {
    k := 0;
    while k < |s| && s[k] != c
      invariant k <= |s| && forall i :: 0 <= i < k ==> s[i] != c
    {
      k := k + 1;
    }
  }

  method IndexSlash(s: string) returns (end: nat)
    ensures end == SegEnd(s)
  {
    end := 0;
    while end < |s| && s[end] != '/'
      invariant end <= |s| && forall i :: 0 <= i < end ==> s[i] != '/'
    {
      end := end + 1;
    }
    SegEndUnique(s, end);
  }

  /** The first wildcard token, its position or -1, and whether its name is clean. */
  method FindWildcardToken(path: string) returns (wildcard: string, i: int, valid: bool)
    ensures match FindWildcard(path)
            case NoWildcard => i == -1
            case Wildcard(b, t, a) =>
              i == |b| && b == path[..i] && t == wildcard && a == path[i + |wildcard|..] && valid == Plain(t[1..])
  {
    var start := 0;
    while start < |path| && !IsWild(path[start])
      invariant start <= |path| && Plain(path[..start])
    {
      start := start + 1;
    }
    if start == |path| {
      assert path[..start] == path;
      WildcardNone(path);
      return "", -1, false;
    }
    valid := true;
    var end := start + 1;
    while end < |path| && path[end] != '/'
      invariant start < end <= |path| && forall j :: start < j < end ==> path[j] != '/'
      invariant valid == Plain(path[start + 1..end])
    {
      PlainSnoc(path[start + 1..end], path[end]);
      assert path[start + 1..end + 1] == path[start + 1..end] + [path[end]];
      if IsWild(path[end]) {
        valid := false;
      }
      end := end + 1;
    }
    wildcard, i := path[start..end], start;
    assert path == path[..start] + wildcard + path[end..];
    assert wildcard[1..] == path[start + 1..end];
    WildcardUnique(path[..start], wildcard, path[end..]);
  }

  lemma PlainSnoc(s: string, c: char)
    ensures Plain(s + [c]) <==> Plain(s) && !IsWild(c)
  {
    assert (s + [c])[|s|] == c;
    assert forall i :: 0 <= i < |s| ==> (s + [c])[i] == s[i];
  }

  lemma {:induction false} WildcardNone(path: string)
    requires Plain(path)
    ensures FindWildcard(path).NoWildcard?
  {
    if path != "" {
      WildcardNone(path[1..]);
    }
  }

  lemma {:induction false} WildcardUnique(b: string, t: string, a: string)
    requires Plain(b) && t != "" && IsWild(t[0]) && '/' !in t && (a == "" || a[0] == '/')
    ensures FindWildcard(b + t + a) == Wildcard(b, t, a)
  {
    var p := b + t + a;
    if b == "" {
      assert p == t + a;
      SegEndUnique(p, |t|);
      assert p[..|t|] == t && p[|t|..] == a;
    } else {
      assert p[0] == b[0] && p[1..] == b[1..] + t + a;
      WildcardUnique(b[1..], t, a);
      assert [b[0]] + b[1..] == b;
    }
  }

  /** The number of wildcard bytes in 16 bits, as the router counts them. */
  method CountParams(path: string) returns (n: nat)
    ensures n == CountWild(path) % 0x1_0000
  {
    n := 0;
    var i := 0;
    assert path[0..] == path;
    while i < |path|
      invariant i <= |path| && (n + CountWild(path[i..])) % 0x1_0000 == CountWild(path) % 0x1_0000 && n < 0x1_0000
    {
      assert path[i..][1..] == path[i + 1..];
      if IsWild(path[i]) {
        n := (n + 1) % 0x1_0000;
      }
      i := i + 1;
    }
  }
}
