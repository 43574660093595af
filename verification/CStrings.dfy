/** NUL-terminated strings in character arrays.  A character is a signed byte, as on the kernel's machine. */
module CStrings {

  type Char = c: int | -128 <= c < 128
  type Text = seq<Char>

  const NUL: Char := 0

  ghost predicate Terminated(s: seq<Char>) {
    NUL in s
  }

  /** The characters before the first NUL. */
  function Str(s: seq<Char>): (t: Text)
    requires Terminated(s)
    ensures |t| < |s| && t == s[..|t|] && s[|t|] == NUL && NUL !in t
  {
    if s[0] == NUL then [] else [s[0]] + Str(s[1..])
  }

  lemma {:induction false} StrIs(s: seq<Char>, n: nat)
    requires n < |s| && s[n] == NUL && NUL !in s[..n]
    ensures Terminated(s) && Str(s) == s[..n]
  {
    var m := |Str(s)|;
    assert n <= m by {
      assert s[m] == NUL && forall i :: 0 <= i < n ==> s[i] == s[..n][i];
    }
    assert m <= n by {
      assert forall i :: 0 <= i < m ==> Str(s)[i] == s[i] && Str(s)[i] in Str(s);
    }
  }

  method Strlen(src: array<Char>) returns (n: nat)
    requires Terminated(src[..])
    ensures n == |Str(src[..])|
  {
    n := 0;
    while src[n] != NUL
      invariant n <= |Str(src[..])| && NUL !in src[..n]
      decreases src.Length - n
    {
      assert src[..][n] == src[n];
      n := n + 1;
    }
    assert src[..][..n] == src[..n];
    StrIs(src[..], n);
  }

  method Strcpy(dst: array<Char>, src: array<Char>)
    requires Terminated(src[..]) && |Str(src[..])| < dst.Length
    modifies dst
    ensures Terminated(dst[..]) && Str(dst[..]) == old(Str(src[..]))
    ensures dst[|Str(dst[..])| + 1..] == old(dst[|Str(src[..])| + 1..])
  {
    ghost var s := Str(src[..]);
    var len := Strlen(src);
    assert s == src[..len] && src[len] == NUL;
    var i := 0;
    while i < len
      invariant 0 <= i <= len
      invariant dst[..i] == s[..i] && forall j :: len <= j < dst.Length ==> dst[j] == old(dst[j])
      invariant src[..len] == s
    {
      assert src[i] == src[..len][i];
      dst[i] := src[i];
      i := i + 1;
    }
    dst[len] := NUL;
    assert dst[..][..len] == dst[..len] == s;
    StrIs(dst[..], len);
    assert |Str(dst[..])| == len && dst[len + 1..] == old(dst[len + 1..]);
  }

  /** Lexicographic order of signed bytes, a proper prefix first. */
  function Compare(a: Text, b: Text): (r: int) {
    if a == [] || b == [] then (if a == b then 0 else if a == [] then -1 else 1)
    else if a[0] > b[0] then 1
    else if a[0] < b[0] then -1
    else Compare(a[1..], b[1..])
  }

  method Strcmp(dst: array<Char>, src: array<Char>) returns (r: int)
    requires Terminated(dst[..]) && Terminated(src[..])
    ensures r == Compare(Str(dst[..]), Str(src[..]))
  {
    ghost var a, b := Str(dst[..]), Str(src[..]);
    var len1 := Strlen(dst);
    var len2 := Strlen(src);
    var len := if len1 < len2 then len1 else len2;
    var i := 0;
    while i < len
      invariant 0 <= i <= len
      invariant Compare(a, b) == Compare(a[i..], b[i..])
    {
      assert dst[i] == a[i] && src[i] == b[i];
      if dst[i] > src[i] {
        return 1;
      } else if dst[i] < src[i] {
        return -1;
      }
      assert a[i..][1..] == a[i + 1..] && b[i..][1..] == b[i + 1..];
      i := i + 1;
    }
    if len1 == len2 {
      return 0;
    } else if len1 > len2 {
      return 1;
    }
    return -1;
  }

  /** What the file system relies on: strcmp gives 0 for equal strings only. */
  lemma {:induction false} CompareZero(a: Text, b: Text)
    ensures Compare(a, b) == 0 <==> a == b
  {
    if a != [] && b != [] && a[0] == b[0] {
      CompareZero(a[1..], b[1..]);
      assert a == [a[0]] + a[1..] && b == [b[0]] + b[1..];
    }
  }

  lemma {:induction false} CompareOrder(a: Text, b: Text, c: Text)
    ensures Compare(a, b) == -Compare(b, a)
    ensures Compare(a, b) <= 0 && Compare(b, c) <= 0 ==> Compare(a, c) <= 0
  {
    if a != [] && b != [] && a[0] == b[0] {
      CompareOrder(a[1..], b[1..], if c == [] then [] else c[1..]);
    }
    CompareZero(a, b);
    CompareZero(b, c);
  }

  /** a and b agree up to k, and there a ends or has the smaller character. */
  ghost predicate LessAt(a: Text, b: Text, k: nat) {
    k <= |a| && k < |b| && a[..k] == b[..k] && (k == |a| || a[k] < b[k])
  }

  ghost predicate Less(a: Text, b: Text) {
    exists k: nat :: LessAt(a, b, k)
  }

  lemma LessTail(a: Text, b: Text)
    requires a != [] && b != [] && a[0] == b[0]
    ensures Less(a, b) <==> Less(a[1..], b[1..])
  {
    if k: nat :| LessAt(a, b, k) {
      assert k > 0 && a[1..][..k - 1] == a[..k][1..] && b[1..][..k - 1] == b[..k][1..];
      assert LessAt(a[1..], b[1..], k - 1);
    }
    if k: nat :| LessAt(a[1..], b[1..], k) {
      assert a[..k + 1] == [a[0]] + a[1..][..k] && b[..k + 1] == [b[0]] + b[1..][..k];
      assert LessAt(a, b, k + 1);
    }
  }

  /** The sign: -1 exactly when the first text comes before the second in the order of a dictionary, 1 when it comes after. */
  lemma {:induction false} CompareMeans(a: Text, b: Text)
    ensures Compare(a, b) == if a == b then 0 else if Less(a, b) then -1 else 1
    ensures a != b ==> (Less(a, b) <==> !Less(b, a))
  {
    if a != [] && b != [] && a[0] == b[0] {
      assert a == [a[0]] + a[1..] && b == [b[0]] + b[1..];
      LessTail(a, b);
      LessTail(b, a);
      CompareMeans(a[1..], b[1..]);
    } else {
      FirstDiffers(a, b);
      FirstDiffers(b, a);
    }
  }

  lemma CommonAt(a: Text, b: Text, k: nat)
    requires k <= |a| && k <= |b| && a[..k] == b[..k]
    ensures forall i :: 0 <= i < k ==> a[i] == b[i]
  {
    forall i | 0 <= i < k
      ensures a[i] == b[i]
    {
      assert a[..k][i] == b[..k][i];
    }
  }

  lemma FirstDiffers(a: Text, b: Text)
    requires a == [] || b == [] || a[0] != b[0]
    ensures Less(a, b) <==> b != [] && (a == [] || a[0] < b[0])
  {
    if k: nat :| LessAt(a, b, k) {
      CommonAt(a, b, k);
    }
    if b != [] && (a == [] || a[0] < b[0]) {
      assert LessAt(a, b, 0);
    }
  }
}
