/** Shared value types: optional values, bytes, big-endian integers and the bytewise order. */
module Basics {

  datatype Option<+T> = None | Some(value: T)

  type Byte = x: int | 0 <= x < 256
  type Bytes = seq<Byte>

  const TWO16 := 0x1_0000
  const TWO32 := 0x1_0000_0000
  const TWO63 := 0x8000_0000_0000_0000
  const TWO64 := 0x1_0000_0000_0000_0000

  type U8 = x: int | 0 <= x < 0x100
  type U16 = x: int | 0 <= x < 0x1_0000
  type U32 = x: int | 0 <= x < 0x1_0000_0000
  type U64 = x: int | 0 <= x < 0x1_0000_0000_0000_0000
  type I64 = x: int | -0x8000_0000_0000_0000 <= x < 0x8000_0000_0000_0000

  /** A SHA-256 digest: 32 bytes. */
  type Digest = s: Bytes | |s| == 32 witness seq(32, _ => 0)

  const ZeroDigest: Digest :=
    [0, 0, 0, 0, 0, 0, 0, 0, 0, 0, 0, 0, 0, 0, 0, 0, 0, 0, 0, 0, 0, 0, 0, 0, 0, 0, 0, 0, 0, 0, 0, 0]

  const DOT: Byte := 0x2E
  const LOWER_A: Byte := 0x61
  const UPPER_A: Byte := 0x41

  /** The hexadecimal digit n, with the given letter for ten. */
  function HexDigit(n: int, ten: Byte): (d: Byte)
    requires 0 <= n < 16 && ten in {LOWER_A, UPPER_A}
  {
    if n < 10 then 0x30 + n else ten + n - 10
  }

  // ---- big-endian integers ----

  function Pow256(w: nat): (p: nat)
    ensures p > 0
  {
    if w == 0 then 1 else 256 * Pow256(w - 1)
  }

  /** The w low-order bytes of n, most significant first (a wider n is truncated, as Go's uintN(n) does). */
  function BE(n: nat, w: nat): (s: Bytes)
    ensures |s| == w
  {
    if w == 0 then [] else BE(n / 256, w - 1) + [n % 256]
  }

  function UnBE(s: Bytes): (n: nat)
  {
    if s == [] then 0 else UnBE(s[..|s| - 1]) * 256 + s[|s| - 1]
  }

  lemma {:induction false} UnBEOfBE(n: nat, w: nat)
    requires n < Pow256(w)
    ensures UnBE(BE(n, w)) == n
  {
    if w > 0 {
      UnBEOfBE(n / 256, w - 1);
      assert BE(n, w)[..w - 1] == BE(n / 256, w - 1);
    }
  }

  lemma {:induction false} UnBEBound(s: Bytes)
    ensures UnBE(s) < Pow256(|s|)
  {
    if s != [] {
      UnBEBound(s[..|s| - 1]);
    }
  }

  lemma {:induction false} Widths()
    ensures Pow256(1) == 0x100 && Pow256(2) == TWO16 && Pow256(4) == TWO32 && Pow256(8) == TWO64
  {
    assert Pow256(2) == 256 * Pow256(1);
    assert Pow256(3) == 256 * Pow256(2);
    assert Pow256(4) == 256 * Pow256(3);
    assert Pow256(5) == 256 * Pow256(4);
    assert Pow256(6) == 256 * Pow256(5);
    assert Pow256(7) == 256 * Pow256(6);
    assert Pow256(8) == 256 * Pow256(7);
  }

  /** Moving the next element from what is left to what is done does not change the whole. */
  lemma {:induction false} Regroup<T>(done: seq<T>, x: T, left: seq<T>)
    ensures (done + [x]) + left == done + ([x] + left)
  {
  }

  lemma {:induction false} Assoc<T>(a: seq<T>, b: seq<T>, c: seq<T>)
    ensures (a + b) + c == a + (b + c)
  {
  }

  lemma {:induction false} EmptyLeft<T>(s: seq<T>)
    ensures [] + s == s
  {
  }

  lemma {:induction false} SubSlice<T>(s: seq<T>, a: nat, b: nat, c: nat, d: nat)
    requires a <= b <= |s| && c <= d <= b - a
    ensures s[a..b][c..d] == s[a + c..a + d]
  {
    forall i | 0 <= i < d - c ensures s[a..b][c..d][i] == s[a + c..a + d][i] {}
    assert |s[a..b][c..d]| == |s[a + c..a + d]|;
  }

  lemma {:induction false} SliceOfPrefix<T>(s: seq<T>, p: seq<T>, i: nat, j: nat)
    requires |p| <= |s| && p == s[..|p|] && i <= j <= |p|
    ensures s[i..j] == p[i..j]
  {
    assert forall k | i <= k < j :: s[k] == p[k];
  }

  /** The parts of a concatenation, in place. */
  lemma {:induction false} Parts<T>(a: seq<T>, b: seq<T>, c: seq<T>, d: seq<T>, e: seq<T>)
    ensures var s, i, j, k := a + b + c + d + e, |a| + |b|, |a| + |b| + |c|, |a| + |b| + |c| + |d|;
            s[..|a|] == a && s[|a|..i] == b && s[i..j] == c && s[j..k] == d && s[k..] == e
  {
  }

  lemma {:induction false} PrefixParts<T>(s: seq<T>, i: nat, j: nat, k: nat)
    requires i <= j <= k <= |s|
    ensures s[..k] == s[..i] + (s[i..j] + s[j..k])
  {
  }

  lemma {:induction false} TakeInHead<T>(a: seq<T>, b: seq<T>, k: nat)
    requires k <= |a|
    ensures (a + b)[..k] == a[..k]
  {
  }

  lemma {:induction false} TakePastHead<T>(a: seq<T>, b: seq<T>, k: nat)
    requires |a| <= k <= |a| + |b|
    ensures (a + b)[..k] == a + b[..k - |a|]
  {
  }

  lemma {:induction false} TakeSnoc<T>(s: seq<T>, i: nat)
    requires i < |s|
    ensures s[..i + 1] == s[..i] + [s[i]] && s[..i + 1][..i] == s[..i]
  {
  }

  lemma {:induction false} HeadTail<T>(s: seq<T>)
    requires s != []
    ensures s == [s[0]] + s[1..]
  {
  }

  lemma {:induction false} PrefixSnoc<T>(p: seq<T>, s: seq<T>)
    requires p < s
    ensures p + [s[|p|]] <= s
  {
  }

  lemma {:induction false} Reunite<T>(s: set<T>, x: T)
    requires x in s
    ensures s - {x} + {x} == s
  {
  }

  lemma {:induction false} InsertBelowHead<T>(x: T, w: seq<T>, i: nat, c: T)
    requires i <= |w|
    ensures [x] + (w[..i] + [c] + w[i..]) == ([x] + w)[..i + 1] + [c] + ([x] + w)[i + 1..]
  {
  }

  // ---- bytewise lexicographic order (Go's string < and bytes.Compare) ----

  predicate Less(a: Bytes, b: Bytes)
  {
    b != [] && (a == [] || a[0] < b[0] || (a[0] == b[0] && Less(a[1..], b[1..])))
  }

  /** Up to the first difference the two are equal; there a has the smaller byte, or ends. */
  ghost predicate LessFrom(a: Bytes, b: Bytes, i: nat)
  {
    i <= |a| && i < |b| && a[..i] == b[..i] && (i == |a| || a[i] < b[i])
  }

  lemma {:induction false} LessMeaning(a: Bytes, b: Bytes)
    ensures Less(a, b) <==> exists i: nat :: LessFrom(a, b, i)
  {
    if b != [] {
      if a == [] || a[0] < b[0] {
        assert LessFrom(a, b, 0);
      } else {
        LessMeaning(a[1..], b[1..]);
        if Less(a, b) {
          var i: nat :| LessFrom(a[1..], b[1..], i);
          LessCons(a, b, i);
        }
        if i: nat :| LessFrom(a, b, i) { LessTail(a, b, i); }
      }
    }
  }

  lemma {:induction false} LessCons(a: Bytes, b: Bytes, i: nat)
    requires a != [] && b != [] && a[0] == b[0] && LessFrom(a[1..], b[1..], i)
    ensures LessFrom(a, b, i + 1)
  {
    assert a[..i + 1] == [a[0]] + a[1..][..i] && b[..i + 1] == [b[0]] + b[1..][..i];
  }

  lemma {:induction false} LessTail(a: Bytes, b: Bytes, i: nat)
    requires a != [] && b != [] && a[0] >= b[0] && LessFrom(a, b, i)
    ensures i > 0 && a[0] == b[0] && LessFrom(a[1..], b[1..], i - 1)
  {
    assert i > 0;
    assert a[..i][0] == b[..i][0];
    assert a[1..][..i - 1] == a[..i][1..] && b[1..][..i - 1] == b[..i][1..];
  }

  lemma {:induction false} LessTotal(a: Bytes, b: Bytes)
    ensures a == b || Less(a, b) || Less(b, a)
    ensures !(Less(a, b) && Less(b, a))
    ensures !Less(a, a)
  {
    if a != [] && b != [] {
      LessTotal(a[1..], b[1..]);
      LessTotal(a[1..], a[1..]);
      assert a == [a[0]] + a[1..] && b == [b[0]] + b[1..];
    } else if a != [] {
      LessTotal(a[1..], a[1..]);
    }
  }

  lemma {:induction false} LessTransitive(a: Bytes, b: Bytes, c: Bytes)
    requires Less(a, b) && Less(b, c)
    ensures Less(a, c)
  {
    if a != [] && a[0] == b[0] && b[0] == c[0] {
      LessTransitive(a[1..], b[1..], c[1..]);
    }
  }

  // ---- sorting a finite set of byte strings ----

  ghost predicate Sorted(s: seq<Bytes>)
  {
    forall i, j | 0 <= i < j < |s| :: Less(s[i], s[j])
  }

  ghost predicate IsMin(s: set<Bytes>, m: Bytes)
  {
    m in s && forall x | x in s && x != m :: Less(m, x)
  }

  lemma {:induction false} HasMin(s: set<Bytes>)
    requires s != {}
    ensures exists m :: IsMin(s, m)
  {
    var x :| x in s;
    var t := s - {x};
    assert s == t + {x};
    if t == {} {
      assert IsMin(s, x);
    } else {
      HasMin(t);
      var m :| IsMin(t, m);
      LessTotal(x, m);
      if Less(x, m) {
        forall y | y in s && y != x ensures Less(x, y) {
          if y != m { LessTransitive(x, m, y); }
        }
        assert IsMin(s, x);
      } else {
        assert IsMin(s, m);
      }
    }
  }

  /** The elements of s in ascending bytewise order. */
  ghost function SortedOf(s: set<Bytes>): (r: seq<Bytes>)
    ensures Sorted(r)
    ensures forall x :: x in r <==> x in s
    ensures |r| == |s|
  {
    if s == {} then [] else
      HasMin(s);
      var m :| IsMin(s, m);
      [m] + SortedOf(s - {m})
  }

  /** A sorted enumeration of a set is unique, so any correct sort yields SortedOf. */
  lemma {:induction false} SortedUnique(a: seq<Bytes>, b: seq<Bytes>)
    requires Sorted(a) && Sorted(b) && |a| == |b|
    requires forall x :: x in a <==> x in b
    ensures a == b
  {
    if a != [] {
      assert a[0] in b;
      assert b[0] in a;
      LessTotal(a[0], b[0]);
      assert a[0] == b[0];
      forall x ensures x in a[1..] <==> x in b[1..] {
        LessTotal(a[0], a[0]);
        assert x in a <==> x == a[0] || x in a[1..];
        assert x in b <==> x == b[0] || x in b[1..];
        if x == a[0] {
          assert x !in a[1..] && x !in b[1..];
        }
      }
      SortedUnique(a[1..], b[1..]);
      assert a == [a[0]] + a[1..] && b == [b[0]] + b[1..];
    }
  }
}
