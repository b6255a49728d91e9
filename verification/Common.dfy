/** Types shared by the modules of this project. */
module Common {

  /** One byte of a file, a mapping or a stream. */
  type byte = b: int | 0 <= b < 256

  /** A byte string: what Go and C++ call a string here. */
  type bytes = seq<byte>

  datatype Option<+T> = None | Some(value: T)

  datatype Result<+T, +E> = Ok(value: T) | Err(error: E)

  /** n zero bytes. */
  function Zeros(n: nat): (z: bytes)
    ensures |z| == n && forall i :: 0 <= i < n ==> z[i] == 0
  {
    seq(n, _ => 0)
  }

  /** The part of b before its first NUL, or all of b when it has none. */
  function CString(b: bytes): (s: bytes)
    ensures |s| <= |b| && s == b[..|s|] && 0 !in s
    ensures |s| < |b| ==> b[|s|] == 0
  {
    if |b| == 0 || b[0] == 0 then []
    else
      var rest := CString(b[1..]);
      assert ([b[0]] + rest) == b[..|rest| + 1];
      [b[0]] + rest
  }

  /** The contract of CString has one solution. */
  lemma {:induction false} CStringUnique(b: bytes, s: bytes)
    requires |s| <= |b| && s == b[..|s|] && 0 !in s
    requires |s| < |b| ==> b[|s|] == 0
    ensures s == CString(b)
  {
    if |b| > 0 && b[0] != 0 {
      assert |s| > 0;
      CStringUnique(b[1..], s[1..]);
    }
  }

  /** At most the first n bytes of s, what copy() keeps when the target holds n. */
  function Truncate(s: bytes, n: nat): (t: bytes)
    ensures |t| == if |s| < n then |s| else n
    ensures t <= s
  {
    if |s| <= n then s else s[..n]
  }

  /** A NUL-padded field gives back the NUL-free string stored in it. */
  lemma CStringOfPadded(s: bytes, pad: nat)
    ensures CString(s + Zeros(pad)) == CString(s)
  {
    var b := s + Zeros(pad);
    var c := CString(s);
    assert c == b[..|c|];
    CStringUnique(b, c);
  }

  lemma CStringOfNulFree(s: bytes)
    requires 0 !in s
    ensures CString(s) == s
  {
    CStringUnique(s, s);
  }

  /** s with the bytes from off on overwritten by mid. */
  function Splice(s: bytes, off: nat, mid: bytes): (w: bytes)
    requires off + |mid| <= |s|
    ensures |w| == |s|
    ensures forall j :: 0 <= j < |s| ==> w[j] == if off <= j < off + |mid| then mid[j - off] else s[j]
  {
    s[..off] + mid + s[off + |mid|..]
  }

  /** A slice of a splice: old bytes outside the overwritten range, new ones inside it. */
  lemma SpliceSlice(s: bytes, off: nat, mid: bytes, lo: nat, hi: nat)
    requires off + |mid| <= |s| && lo <= hi <= |s|
    ensures hi <= off || off + |mid| <= lo ==> Splice(s, off, mid)[lo..hi] == s[lo..hi]
    ensures off <= lo && hi <= off + |mid| ==> Splice(s, off, mid)[lo..hi] == mid[lo - off..hi - off]
  {
    hide Splice;
    var part := Splice(s, off, mid)[lo..hi];
    if hi <= off || off + |mid| <= lo {
      assert forall i :: 0 <= i < hi - lo ==> part[i] == s[lo..hi][i];
    } else if off <= lo && hi <= off + |mid| {
      assert forall i :: 0 <= i < hi - lo ==> part[i] == mid[lo - off..hi - off][i];
    }
  }

  /** Go's copy: src over the bytes of a from off on. */
  method CopyInto(a: array<byte>, off: nat, src: bytes)
    requires off + |src| <= a.Length
    modifies a
    ensures a[..] == Splice(old(a[..]), off, src)
  {
    ghost var was := a[..];
    for k := 0 to |src|
      invariant a[..] == Splice(was, off, src[..k])
    {
      a[off + k] := src[k];
    }
    assert src[..|src|] == src;
  }

  /** What a failed write leaves: a proper part of what was to be appended. */
  ghost predicate PartlyAppended(was: bytes, now: bytes, more: bytes) {
    was <= now && now <= was + more && now != was + more
  }

  /** The stream that arrives as these chunks. */
  function Concat(chunks: seq<bytes>): bytes {
    if chunks == [] then [] else chunks[0] + Concat(chunks[1..])
  }

  lemma {:induction false} ConcatAppend(a: seq<bytes>, b: seq<bytes>)
    ensures Concat(a + b) == Concat(a) + Concat(b)
  {
    if a == [] {
      assert a + b == b;
    } else {
      assert (a + b)[1..] == a[1..] + b;
      ConcatAppend(a[1..], b);
    }
  }

  lemma ConcatSnoc(a: seq<bytes>, last: bytes)
    ensures Concat(a + [last]) == Concat(a) + last
  {
    ConcatAppend(a, [last]);
    assert Concat([last]) == last + Concat([]);
  }

  // ----- byte order -----

  /** The byte order that Go's string comparison and std::string's use. */
  predicate Less(a: bytes, b: bytes) {
    b != [] && (a == [] || a[0] < b[0] || (a[0] == b[0] && Less(a[1..], b[1..])))
  }

  lemma {:induction false} LessIsStrict(a: bytes, b: bytes)
    requires Less(a, b)
    ensures !Less(b, a) && a != b
  {
    if a != [] && a[0] == b[0] { LessIsStrict(a[1..], b[1..]); }
  }

  lemma {:induction false} LessIsTotal(a: bytes, b: bytes)
    ensures Less(a, b) || Less(b, a) || a == b
  {
    if a != [] && b != [] && a[0] == b[0] {
      LessIsTotal(a[1..], b[1..]);
      assert a == [a[0]] + a[1..] && b == [b[0]] + b[1..];
    }
  }

  lemma {:induction false} LessIsTransitive(a: bytes, b: bytes, c: bytes)
    requires Less(a, b) && Less(b, c)
    ensures Less(a, c)
  {
    if a != [] && a[0] == b[0] == c[0] { LessIsTransitive(a[1..], b[1..], c[1..]); }
  }

  // ----- remainders -----

  lemma MultipleBelow(q: int, m: int)
    requires -m < q * m < m
    ensures q == 0
  {
  }

  /** Two numbers less than m apart with the same remainder are equal. */
  lemma SameRemainder(i: nat, j: nat, m: nat)
    requires m >= 1 && i % m == j % m && i < j + m && j < i + m
    ensures i == j
  {
    assert (i / m - j / m) * m == i - j;
    MultipleBelow(i / m - j / m, m);
  }

  lemma RemainderOf(q: nat, r: nat, m: nat)
    requires r < m
    ensures (q * m + r) % m == r
  {
    var a := q * m + r;
    assert (a / m - q) * m == r - a % m;
    MultipleBelow(a / m - q, m);
  }

  lemma AddModulus(i: nat, m: nat)
    requires m >= 1
    ensures (i + m) % m == i % m
  {
    assert i + m == (i / m + 1) * m + i % m;
    RemainderOf(i / m + 1, i % m, m);
  }

  // ----- sums over a sequence -----

  function Total<T>(s: seq<T>, f: T -> int): int {
    if s == [] then 0 else f(s[0]) + Total(s[1..], f)
  }

  lemma {:induction false} TotalUpdate<T>(s: seq<T>, k: nat, x: T, f: T -> int)
    requires k < |s|
    ensures Total(s[k := x], f) == Total(s, f) - f(s[k]) + f(x)
  {
    if k > 0 {
      assert s[k := x][1..] == s[1..][k - 1 := x];
      TotalUpdate(s[1..], k - 1, x, f);
    } else {
      assert s[k := x][1..] == s[1..];
    }
  }

  lemma {:induction false} TotalConstant<T>(s: seq<T>, f: T -> int, v: int)
    requires forall i :: 0 <= i < |s| ==> f(s[i]) == v
    ensures Total(s, f) == |s| * v
  {
    if s != [] { TotalConstant(s[1..], f, v); }
  }

  lemma {:induction false} TotalNonNegative<T>(s: seq<T>, f: T -> int)
    requires forall i :: 0 <= i < |s| ==> f(s[i]) >= 0
    ensures Total(s, f) >= 0
    ensures Total(s, f) == 0 <==> forall i :: 0 <= i < |s| ==> f(s[i]) == 0
  {
    if s != [] {
      TotalNonNegative(s[1..], f);
      assert forall i :: 1 <= i < |s| ==> s[i] == s[1..][i - 1];
    }
  }
}
