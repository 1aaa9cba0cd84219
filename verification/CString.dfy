/**
 Model of src/string.c. A C string is a buffer that holds a NUL; its text is what comes before
 the first one. Buffers are values here: a writing routine returns the buffer it leaves behind.
 */
module CString {

  datatype CPtr = Null | At(buf: seq<char>)

  predicate IsCString(b: seq<char>) { '\0' in b }

  /** What a pointer argument must be: null, or the address of a NUL-terminated buffer. */
  predicate NullOrCString(p: CPtr) { p.At? ==> IsCString(p.buf) }

  /** The text before the first NUL (all of the buffer when it holds none). */
  function Text(b: seq<char>): (t: string)
    ensures |t| <= |b| && t == b[..|t|] && '\0' !in t
    ensures |t| < |b| ==> b[|t|] == '\0'
    ensures IsCString(b) ==> |t| < |b|
  {
    if b == [] || b[0] == '\0' then [] else [b[0]] + Text(b[1..])
  }

  /** The calls of src/fs.c modelled here that accept a null name treat it like the empty one. */
  function PtrText(p: CPtr): string {
    if p.Null? then "" else Text(p.buf)
  }

  /** The text is the only NUL-free prefix that a NUL follows. */
  lemma {:induction false} TextIs(b: seq<char>, n: nat)
    requires n < |b| && b[n] == '\0' && '\0' !in b[..n]
    ensures Text(b) == b[..n]
  {
    if n > 0 {
      assert b[0] == b[..n][0] && b[1..][..n - 1] == b[..n][1..];
      TextIs(b[1..], n - 1);
    }
  }

  /** A scan that has met no NUL yet is still inside the text. */
  lemma {:induction false} InsideText(b: seq<char>, n: nat)
    requires n <= |b| && '\0' !in b[..n]
    ensures n <= |Text(b)|
  {
    if n > 0 {
      assert b[0] == b[..n][0] && b[1..][..n - 1] == b[..n][1..];
      InsideText(b[1..], n - 1);
    }
  }

  /** Where two buffers first differ, or both end, decides whether their texts are equal. */
  lemma {:induction false} TextsDiffer(a: seq<char>, b: seq<char>, n: nat)
    requires n < |a| && n < |b| && a[..n] == b[..n] && '\0' !in a[..n]
    requires a[n] != b[n] || a[n] == '\0'
    ensures Text(a) == Text(b) <==> a[n] == b[n]
  {
    if n > 0 {
      assert a[0] == a[..n][0] == b[..n][0] == b[0];
      assert a[1..][..n - 1] == a[..n][1..] == b[..n][1..] == b[1..][..n - 1];
      TextsDiffer(a[1..], b[1..], n - 1);
    } else if a[0] != '\0' {
      assert Text(a)[0] == a[0];
    } else if b[0] != '\0' {
      assert Text(b)[0] == b[0];
    }
  }

  method Strlen(s: seq<char>) returns (len: nat)
    requires IsCString(s)
    ensures len == |Text(s)|
  {
    len := 0;
    while s[len] != '\0'
      invariant len <= |Text(s)|
      invariant '\0' !in s[..len]
      decreases |s| - len
    {
      assert s[..len + 1] == s[..len] + [s[len]];
      InsideText(s, len + 1);
      len := len + 1;
    }
    TextIs(s, len);
  }

  /** Zero exactly on equal texts; otherwise the difference of the first characters that differ. */
  method Strcmp(a: seq<char>, b: seq<char>) returns (r: int)
    requires IsCString(a) && IsCString(b)
    ensures r == 0 <==> Text(a) == Text(b)
    ensures r != 0 ==> exists k :: 0 <= k < |a| && k < |b| && a[..k] == b[..k] && r == a[k] as int - b[k] as int
  {
    var i := 0;
    while a[i] != '\0' && a[i] == b[i]
      invariant i < |a| && i < |b|
      invariant a[..i] == b[..i] && '\0' !in a[..i]
      decreases |a| - i
    {
      assert a[..i + 1] == a[..i] + [a[i]] && b[..i + 1] == b[..i] + [b[i]];
      InsideText(a, i + 1);
      InsideText(b, i + 1);
      i := i + 1;
    }
    TextsDiffer(a, b, i);
    return a[i] as int - b[i] as int;
  }

  /** Copies at most n characters of the text and fills the rest of the first n places with NULs. */
  method Strncpy(dest: seq<char>, src: seq<char>, n: nat) returns (d: seq<char>)
    requires IsCString(src) && n <= |dest|
    ensures |d| == |dest| && d[n..] == dest[n..]
    ensures var m := if |Text(src)| < n then |Text(src)| else n;
            d[..n] == Text(src)[..m] + seq(n - m, _ => '\0')
  {
    d := dest;
    var i := 0;
    ghost var m := if |Text(src)| < n then |Text(src)| else n;
    while i < n && src[i] != '\0'
      invariant i <= m && |d| == |dest| && d[n..] == dest[n..]
      invariant d[..i] == src[..i] && '\0' !in src[..i]
      decreases n - i
    {
      assert src[..i + 1] == src[..i] + [src[i]];
      InsideText(src, i + 1);
      d := d[i := src[i]];
      assert d[..i + 1] == d[..i] + [src[i]];
      i := i + 1;
    }
    if i < n { TextIs(src, i); }
    assert i == m;
    while i < n
      invariant m <= i <= n && |d| == |dest| && d[n..] == dest[n..]
      invariant d[..m] == Text(src)[..m]
      invariant forall j :: m <= j < i ==> d[j] == '\0'
    {
      d := d[i := '\0'];
      i := i + 1;
    }
  }

  /** dest with the characters of src written over it from position at on. */
  function Splice(dest: seq<char>, at: nat, src: seq<char>): (d: seq<char>)
    requires at + |src| <= |dest|
    ensures |d| == |dest|
    ensures d[at..at + |src|] == src
    ensures forall k :: 0 <= k < at || at + |src| <= k < |dest| ==> d[k] == dest[k]
  {
    dest[..at] + src + dest[at + |src|..]
  }

  method Memcpy(dest: seq<char>, at: nat, src: seq<char>, n: nat) returns (d: seq<char>)
    requires n <= |src| && at + n <= |dest|
    ensures d == Splice(dest, at, src[..n])
  {
    d := dest;
    for i := 0 to n
      invariant |d| == |dest|
      invariant forall k :: at <= k < at + i ==> d[k] == src[k - at]
      invariant forall k :: 0 <= k < at || at + i <= k < |dest| ==> d[k] == dest[k]
    {
      d := d[at + i := src[i]];
    }
  }

  /** The same copy into a caller's buffer. */
  method MemcpyOut(dest: array<char>, at: nat, src: seq<char>, from: nat, n: nat)
    requires from + n <= |src| && at + n <= dest.Length
    modifies dest
    ensures dest[..] == Splice(old(dest[..]), at, src[from..from + n])
  {
    for i := 0 to n
      invariant forall k :: at <= k < at + i ==> dest[k] == src[from + (k - at)]
      invariant forall k :: 0 <= k < at || at + i <= k < dest.Length ==> dest[k] == old(dest[k])
    {
      dest[at + i] := src[from + i];
    }
    assert dest[..] == Splice(old(dest[..]), at, src[from..from + n]);
  }
}
