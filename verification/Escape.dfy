/** Reversible Windows-legal names (internal/pathnorm/windows.go), over arbitrary byte strings. */
module Escape {
  import opened Basics

  const PERCENT: Byte := 0x25
  const SPACE: Byte := 0x20

  /** < > : " / \ | ? * */
  predicate IsReservedChar(b: Byte)
  {
    b in {0x3C, 0x3E, 0x3A, 0x22, 0x2F, 0x5C, 0x7C, 0x3F, 0x2A}
  }

  predicate IsControl(b: Byte) { b <= 31 }

  predicate Illegal(b: Byte) { IsReservedChar(b) || IsControl(b) }

  /** The part before the first dot. */
  function StemOf(name: Bytes): (s: Bytes)
  {
    if name == [] || name[0] == DOT then [] else [name[0]] + StemOf(name[1..])
  }

  function Upper(b: Byte): Byte { if 0x61 <= b <= 0x7A then b - 0x20 else b }

  function ToUpper(s: Bytes): (r: Bytes)
    ensures |r| == |s| && forall i | 0 <= i < |s| :: r[i] == Upper(s[i])
  {
    if s == [] then [] else [Upper(s[0])] + ToUpper(s[1..])
  }

  const COM: Bytes := [0x43, 0x4F, 0x4D]
  const LPT: Bytes := [0x4C, 0x50, 0x54]

  /** CON PRN AUX NUL, COM and LPT followed by 1-9 or a superscript 1, 2 or 3 (UTF-8 C2 B9, C2 B2, C2 B3). */
  predicate ReservedStem(s: Bytes)
  {
    || s in {[0x43, 0x4F, 0x4E], [0x50, 0x52, 0x4E], [0x41, 0x55, 0x58], [0x4E, 0x55, 0x4C]}
    || (|s| == 4 && s[..3] in {COM, LPT} && 0x31 <= s[3] <= 0x39)
    || (|s| == 5 && s[..3] in {COM, LPT} && s[3] == 0xC2 && s[4] in {0xB9, 0xB2, 0xB3})
  }

  predicate IsReservedStem(name: Bytes) { ReservedStem(ToUpper(StemOf(name))) }

  predicate WindowsUnsafe(name: Bytes)
  {
    name != [] && ((exists b | b in name :: Illegal(b)) || IsReservedStem(name) || name[|name| - 1] in {SPACE, DOT})
  }

  method IsWindowsUnsafe(name: Bytes) returns (r: bool)
    ensures r <==> WindowsUnsafe(name)
  {
    if name == [] { return false; }
    for i := 0 to |name|
      invariant forall k | 0 <= k < i :: !Illegal(name[k])
    {
      if IsReservedChar(name[i]) || IsControl(name[i]) {
        assert name[i] in name;
        return true;
      }
    }
    if IsReservedStem(name) { return true; }
    var last := name[|name| - 1];
    return last == SPACE || last == DOT;
  }

  // ---- escaping ----

  function Hex2(b: Byte): (s: Bytes) { [PERCENT, HexDigit(b / 16, UPPER_A), HexDigit(b % 16, UPPER_A)] }

  function EscapeByte(b: Byte): (s: Bytes)
  {
    if b == PERCENT then [0x25, 0x32, 0x35] else if Illegal(b) then Hex2(b) else [b]
  }

  function EscapeBytes(name: Bytes): (s: Bytes)
  {
    if name == [] then [] else EscapeBytes(name[..|name| - 1]) + EscapeByte(name[|name| - 1])
  }

  /** The final byte, when it is a space or a dot. */
  function EscapeLast(s: Bytes): (r: Bytes)
  {
    if s != [] && s[|s| - 1] in {SPACE, DOT} then s[..|s| - 1] + Hex2(s[|s| - 1]) else s
  }

  /** The first byte of a reserved device name. */
  function EscapeFirst(name: Bytes, s: Bytes): (r: Bytes)
  {
    if IsReservedStem(name) && s != [] && s[0] != PERCENT then Hex2(s[0]) + s[1..] else s
  }

  function Escaped(name: Bytes): (s: Bytes) { EscapeFirst(name, EscapeLast(EscapeBytes(name))) }

  method EscapeForWindows(name: Bytes) returns (s: Bytes)
    ensures s == Escaped(name)
  {
    if name == [] { return name; }
    s := [];
    for i := 0 to |name|
      invariant s == EscapeBytes(name[..i])
    {
      var c := name[i];
      assert name[..i + 1][..i] == name[..i];
      if c == PERCENT { s := s + [0x25, 0x32, 0x35]; }
      else if IsReservedChar(c) || IsControl(c) { s := s + Hex2(c); }
      else { s := s + [c]; }
    }
    assert name[..|name|] == name;
    var n := |s|;
    if n > 0 && (s[n - 1] == SPACE || s[n - 1] == DOT) { s := s[..n - 1] + Hex2(s[n - 1]); }
    if IsReservedStem(name) && |s| > 0 && s[0] != PERCENT { s := Hex2(s[0]) + s[1..]; }
  }

  // ---- unescaping ----

  function Unhex(c: Byte): (r: Option<int>)
    ensures r.Some? ==> 0 <= r.value < 16
  {
    if 0x30 <= c <= 0x39 then Some(c - 0x30)
    else if 0x41 <= c <= 0x46 then Some(c - 0x41 + 10)
    else if 0x61 <= c <= 0x66 then Some(c - 0x61 + 10)
    else None
  }

  predicate Triplet(s: Bytes) { |s| > 2 && s[0] == PERCENT && Unhex(s[1]).Some? && Unhex(s[2]).Some? }

  function Unescaped(s: Bytes): (r: Bytes)
  {
    if s == [] then []
    else if Triplet(s) then [Unhex(s[1]).value * 16 + Unhex(s[2]).value] + Unescaped(s[3..])
    else [s[0]] + Unescaped(s[1..])
  }

  method UnescapeFromWindows(s: Bytes) returns (r: Bytes)
    ensures r == Unescaped(s)
  {
    if PERCENT !in s {
      NothingToUnescape(s);
      return s;
    }
    r := [];
    var i := 0;
    while i < |s|
      invariant 0 <= i <= |s| && r + Unescaped(s[i..]) == Unescaped(s)
    {
      var step := 1;
      var b := s[i];
      if s[i] == PERCENT && i + 2 < |s| {
        var h, l := Unhex(s[i + 1]), Unhex(s[i + 2]);
        if h.Some? && l.Some? { b, step := h.value * 16 + l.value, 3; }
      }
      TokenTaken(s, i, r, b, step);
      r := r + [b];
      i := i + step;
    }
  }

  /** The token at i is a hex triplet or a single byte. */
  lemma {:induction false} TokenAt(s: Bytes, i: nat, b: Byte, step: nat)
    requires i < |s|
    requires if Triplet(s[i..]) then step == 3 && b == Unhex(s[i + 1]).value * 16 + Unhex(s[i + 2]).value
             else step == 1 && b == s[i]
    ensures Unescaped(s[i..]) == [b] + Unescaped(s[i + step..])
  {
    assert s[i..][step..] == s[i + step..];
  }

  lemma {:induction false} TokenTaken(s: Bytes, i: nat, r: Bytes, b: Byte, step: nat)
    requires i < |s| && r + Unescaped(s[i..]) == Unescaped(s)
    requires if Triplet(s[i..]) then step == 3 && b == Unhex(s[i + 1]).value * 16 + Unhex(s[i + 2]).value
             else step == 1 && b == s[i]
    ensures i + step <= |s| && (r + [b]) + Unescaped(s[i + step..]) == Unescaped(s)
  {
    TokenAt(s, i, b, step);
    Regroup(r, b, Unescaped(s[i + step..]));
  }

  lemma {:induction false} NothingToUnescape(s: Bytes)
    requires PERCENT !in s
    ensures Unescaped(s) == s
  {
    if s != [] {
      assert s == [s[0]] + s[1..];
      NothingToUnescape(s[1..]);
    }
  }

  // ---- round trip ----

  lemma {:induction false} UnescapeToken(b: Byte, rest: Bytes)
    ensures Unescaped(Hex2(b) + rest) == [b] + Unescaped(rest)
    ensures b != PERCENT ==> Unescaped([b] + rest) == [b] + Unescaped(rest)
    ensures Unescaped(EscapeByte(b) + rest) == [b] + Unescaped(rest)
  {
    var s := Hex2(b) + rest;
    assert s[3..] == rest;
    assert ([b] + rest)[1..] == rest;
    assert b == PERCENT ==> Hex2(b) == EscapeByte(b);
  }

  lemma {:induction false} UnescapeBody(name: Bytes, rest: Bytes)
    ensures Unescaped(EscapeBytes(name) + rest) == name + Unescaped(rest)
  {
    if name == [] {
      assert EscapeBytes(name) + rest == rest;
    } else {
      var init, b := name[..|name| - 1], name[|name| - 1];
      UnescapeBody(init, EscapeByte(b) + rest);
      UnescapeToken(b, rest);
      Assoc(EscapeBytes(init), EscapeByte(b), rest);
      Assoc(init, [b], Unescaped(rest));
      assert init + [b] == name;
    }
  }

  lemma {:induction false} EscapeBytesLast(name: Bytes)
    requires name != []
    ensures var s, init, b := EscapeBytes(name), name[..|name| - 1], name[|name| - 1];
            s != [] && (s[|s| - 1] in {SPACE, DOT} ==> s == EscapeBytes(init) + [b] && s[|s| - 1] == b)
  {
  }

  lemma {:induction false} UnescapeWhole(name: Bytes)
    ensures Unescaped(EscapeBytes(name)) == name
  {
    UnescapeBody(name, []);
    assert EscapeBytes(name) + [] == EscapeBytes(name) && name + [] == name;
  }

  lemma {:induction false} UnescapeWithHex(init: Bytes, b: Byte)
    ensures Unescaped(EscapeBytes(init) + Hex2(b)) == init + [b]
  {
    UnescapeBody(init, Hex2(b));
    UnescapeToken(b, []);
    assert Hex2(b) + [] == Hex2(b);
  }

  /** The escaped name is the byte-wise escape with its last byte possibly in hex. */
  lemma {:induction false} EscapeLastForm(name: Bytes, init: Bytes, b: Byte)
    requires name == init + [b]
    ensures EscapeLast(EscapeBytes(name)) in {EscapeBytes(name), EscapeBytes(init) + Hex2(b)}
  {
    assert name[..|name| - 1] == init;
    EscapeBytesLast(name);
    var s := EscapeBytes(name);
    if s[|s| - 1] in {SPACE, DOT} { assert s[..|s| - 1] == EscapeBytes(init); }
  }

  lemma {:induction false} UnescapeLast(name: Bytes)
    ensures Unescaped(EscapeLast(EscapeBytes(name))) == name
  {
    UnescapeWhole(name);
    if name != [] {
      var init, b := name[..|name| - 1], name[|name| - 1];
      assert name == init + [b];
      EscapeLastForm(name, init, b);
      UnescapeWithHex(init, b);
    }
  }

  /** Every byte string survives the round trip. */
  lemma {:induction false} RoundTrip(name: Bytes)
    ensures Unescaped(Escaped(name)) == name
  {
    var t := EscapeLast(EscapeBytes(name));
    UnescapeLast(name);
    if IsReservedStem(name) && t != [] && t[0] != PERCENT {
      UnescapeToken(t[0], t[1..]);
      assert t == [t[0]] + t[1..];
    }
  }

  lemma {:induction false} EscapeInjective(x: Bytes, y: Bytes)
    requires Escaped(x) == Escaped(y)
    ensures x == y
  {
    RoundTrip(x);
    RoundTrip(y);
  }

  // ---- legality ----

  predicate AllLegal(s: Bytes) { forall i | 0 <= i < |s| :: !Illegal(s[i]) }

  /** Non-empty, and no final space or dot. */
  predicate GoodEnd(s: Bytes) { s != [] && s[|s| - 1] !in {SPACE, DOT} }

  lemma {:induction false} EscapedBytesLegal(name: Bytes)
    ensures AllLegal(EscapeBytes(name))
  {
    if name != [] { EscapedBytesLegal(name[..|name| - 1]); }
  }

  /** A legal first byte that is not '%' was copied from the name. */
  lemma {:induction false} EscapeHead(name: Bytes)
    ensures name != [] ==> EscapeBytes(name) == EscapeByte(name[0]) + EscapeBytes(name[1..])
  {
    if |name| > 1 {
      var init, b := name[..|name| - 1], name[|name| - 1];
      EscapeHead(init);
      assert init[1..] == name[1..][..|name| - 2];
      Assoc(EscapeByte(name[0]), EscapeBytes(init[1..]), EscapeByte(b));
    }
  }

  lemma {:induction false} StemHead(s: Bytes)
    requires s != [] && s[0] != DOT
    ensures StemOf(s) == [s[0]] + StemOf(s[1..])
  {
  }

  lemma {:induction false} CopiedOrPercent(b: Byte)
    ensures EscapeByte(b) == [b] || (EscapeByte(b) != [] && EscapeByte(b)[0] == PERCENT)
  {
  }

  /** One byte in front of two strings with one stem. */
  lemma {:induction false} SameStem(b: Byte, s: Bytes, t: Bytes)
    ensures StemOf(s) == StemOf(t) ==> StemOf([b] + s) == StemOf([b] + t)
    ensures PERCENT in StemOf(s) && b != DOT ==> PERCENT in StemOf([b] + s)
    ensures b == DOT ==> StemOf([b] + s) == StemOf([b] + t)
  {
    assert ([b] + s)[1..] == s && ([b] + t)[1..] == t;
  }

  /** A stem free of '%' is the stem of the unescaped name too. */
  lemma {:induction false} StemSurvives(name: Bytes)
    requires PERCENT !in StemOf(EscapeBytes(name))
    ensures StemOf(EscapeBytes(name)) == StemOf(name)
  {
    if name != [] {
      var b, rest := name[0], EscapeBytes(name[1..]);
      EscapeHead(name);
      CopiedOrPercent(b);
      if EscapeByte(b) != [b] { StemHead(EscapeBytes(name)); }
      SameStem(b, rest, name[1..]);
      assert name == [b] + name[1..];
      if b != DOT { StemSurvives(name[1..]); }
    }
  }

  lemma {:induction false} ReservedBytes(u: Bytes)
    requires ReservedStem(u)
    ensures forall i | 0 <= i < |u| :: u[i] != PERCENT
  {
  }

  lemma {:induction false} PercentNotReserved(s: Bytes)
    requires PERCENT in s
    ensures !ReservedStem(ToUpper(s))
  {
    var i :| 0 <= i < |s| && s[i] == PERCENT;
    assert ToUpper(s)[i] == PERCENT;
    if ReservedStem(ToUpper(s)) { ReservedBytes(ToUpper(s)); }
  }

  /** Escaping the last byte leaves the stem alone, or puts a '%' in it. */
  lemma {:induction false} StemAfterLast(s: Bytes)
    requires s != [] && s[|s| - 1] in {SPACE, DOT}
    ensures StemOf(EscapeLast(s)) == StemOf(s) || PERCENT in StemOf(EscapeLast(s))
  {
    var init, b := s[..|s| - 1], s[|s| - 1];
    assert s == init + [b];
    StemOfAppend(init, Hex2(b));
    StemOfAppend(init, [b]);
    HexStem(b);
  }

  lemma {:induction false} HexStem(b: Byte)
    ensures PERCENT in StemOf(Hex2(b))
  {
    StemHead(Hex2(b));
    assert StemOf(Hex2(b))[0] == PERCENT;
  }

  lemma {:induction false} StemOfAppend(a: Bytes, b: Bytes)
    ensures StemOf(a + b) == if DOT in a then StemOf(a) else a + StemOf(b)
  {
    if a == [] {
      assert a + b == b;
    } else {
      var x, t := a[0], a[1..];
      assert a == [x] + t && a + b == [x] + (t + b);
      if x != DOT {
        StemOfAppend(t, b);
        StemHead(a);
        StemHead(a + b);
        assert (a + b)[1..] == t + b;
      }
    }
  }

  /** An escaped stem that still looks reserved would have been reserved in the original name. */
  lemma {:induction false} StemNotReserved(name: Bytes)
    requires !IsReservedStem(name)
    ensures !IsReservedStem(EscapeLast(EscapeBytes(name)))
  {
    var s := EscapeBytes(name);
    var t := EscapeLast(s);
    if PERCENT in StemOf(t) {
      PercentNotReserved(StemOf(t));
    } else {
      if t != s { StemAfterLast(s); }
      StemSurvives(name);
    }
  }

  lemma {:induction false} LegalEnd(s: Bytes)
    requires s != [] && AllLegal(s)
    ensures GoodEnd(EscapeLast(s)) && AllLegal(EscapeLast(s))
  {
    var t := EscapeLast(s);
    forall i | 0 <= i < |t| ensures !Illegal(t[i]) {
      if t != s { assert t[i] == if i < |s| - 1 then s[i] else Hex2(s[|s| - 1])[i - |s| + 1]; }
    }
  }

  lemma {:induction false} LegalStart(name: Bytes, t: Bytes)
    requires GoodEnd(t) && AllLegal(t)
    ensures GoodEnd(EscapeFirst(name, t)) && AllLegal(EscapeFirst(name, t))
  {
    var e := EscapeFirst(name, t);
    forall i | 0 <= i < |e| ensures !Illegal(e[i]) {
      if e != t { assert e[i] == if i < 3 then Hex2(t[0])[i] else t[i - 2]; }
    }
  }

  lemma {:induction false} PercentFirst(e: Bytes)
    requires e != [] && e[0] == PERCENT
    ensures !IsReservedStem(e)
  {
    StemHead(e);
    PercentNotReserved(StemOf(e));
  }

  lemma {:induction false} FirstEscaped(name: Bytes, t: Bytes)
    requires IsReservedStem(name) && t != []
    ensures EscapeFirst(name, t) != [] && EscapeFirst(name, t)[0] == PERCENT
  {
  }

  lemma {:induction false} EscapeNonEmpty(name: Bytes)
    requires name != []
    ensures EscapeBytes(name) != [] && EscapeLast(EscapeBytes(name)) != []
  {
  }

  lemma {:induction false} EscapedStem(name: Bytes)
    requires name != []
    ensures !IsReservedStem(Escaped(name))
  {
    if IsReservedStem(name) {
      EscapeNonEmpty(name);
      FirstEscaped(name, EscapeLast(EscapeBytes(name)));
      PercentFirst(Escaped(name));
    } else {
      StemNotReserved(name);
    }
  }

  lemma {:induction false} EscapedLegal(name: Bytes)
    requires name != []
    ensures GoodEnd(Escaped(name)) && AllLegal(Escaped(name))
  {
    EscapeNonEmpty(name);
    EscapedBytesLegal(name);
    LegalEnd(EscapeBytes(name));
    LegalStart(name, EscapeLast(EscapeBytes(name)));
  }

  /** The escaped form can always be written on Windows. */
  lemma {:induction false} EscapeIsLegal(name: Bytes)
    ensures !WindowsUnsafe(Escaped(name))
  {
    if name == [] {
      assert Escaped(name) == [];
    } else {
      EscapedStem(name);
      EscapedLegal(name);
    }
  }

  // ---- exactly what is escaped ----

  /** Byte i is left as it is: no '%', nothing reserved or control, no final space or dot, no first byte of a reserved
      device name. */
  predicate Kept(name: Bytes, i: nat)
    requires i < |name|
  {
    && name[i] != PERCENT && !IsReservedChar(name[i]) && !IsControl(name[i])
    && !(i == |name| - 1 && (name[i] == SPACE || name[i] == DOT))
    && !(i == 0 && IsReservedStem(name))
  }

  function Piece(name: Bytes, i: nat): (s: Bytes)
    requires i < |name|
  {
    if Kept(name, i) then [name[i]] else Hex2(name[i])
  }

  /** What the first n bytes come out as, byte by byte. */
  function Pieces(name: Bytes, n: nat): (s: Bytes)
    requires n <= |name|
  {
    if n == 0 then [] else Pieces(name, n - 1) + Piece(name, n - 1)
  }

  /** How many of the first n bytes are escaped. */
  function Changed(name: Bytes, n: nat): (k: nat)
    requires n <= |name|
  {
    if n == 0 then 0 else Changed(name, n - 1) + if Kept(name, n - 1) then 0 else 1
  }

  lemma {:induction false} PercentInHex()
    ensures Hex2(PERCENT) == [0x25, 0x32, 0x35]
  {
  }

  lemma {:induction false} StemIsPrefix(name: Bytes)
    ensures |StemOf(name)| <= |name| && (StemOf(name) != [] ==> StemOf(name)[0] == name[0])
  {
    if name != [] && name[0] != DOT { StemIsPrefix(name[1..]); }
  }

  /** A reserved device name starts with a letter and is at least three bytes long. */
  lemma {:induction false} ReservedStart(name: Bytes)
    requires IsReservedStem(name)
    ensures |name| >= 3 && EscapeByte(name[0]) == [name[0]] && name[0] != PERCENT && !Illegal(name[0])
  {
    var u := ToUpper(StemOf(name));
    StemIsPrefix(name);
    assert |u| >= 3 && u[0] == Upper(name[0]);
    ReservedInitial(u);
  }

  lemma {:induction false} ReservedInitial(u: Bytes)
    requires ReservedStem(u)
    ensures |u| >= 3 && u[0] in {0x43, 0x50, 0x41, 0x4E, 0x4C}
  {
    if |u| > 3 { assert u[0] == u[..3][0]; }
  }

  lemma {:induction false} PlainPieces(name: Bytes, k: nat)
    requires k < |name| && !IsReservedStem(name)
    ensures Pieces(name, k) == EscapeBytes(name[..k])
  {
    if k > 0 {
      PlainPieces(name, k - 1);
      PercentInHex();
      assert name[..k][..k - 1] == name[..k - 1];
    }
  }

  lemma {:induction false} MiddlePiece(name: Bytes, k: nat)
    requires 0 < k < |name| - 1
    ensures Piece(name, k) == EscapeByte(name[k])
  {
    PercentInHex();
  }

  /** The first byte of a reserved name comes out as a triplet, the k - 1 after it as the byte-wise escape has them. */
  ghost predicate FirstIsHex(name: Bytes, k: nat)
    requires 0 < k < |name|
  {
    var s := EscapeBytes(name[..k]);
    s != [] && s[0] == name[0] && Pieces(name, k) == Hex2(name[0]) + s[1..]
  }

  lemma {:induction false} ReservedFirst(name: Bytes)
    requires |name| > 1 && IsReservedStem(name)
    ensures FirstIsHex(name, 1)
  {
    ReservedStart(name);
    assert name[..1][..0] == [];
    assert Pieces(name, 1) == Pieces(name, 0) + Piece(name, 0);
  }

  lemma {:induction false} ReservedNext(name: Bytes, k: nat)
    requires 1 < k < |name| && FirstIsHex(name, k - 1)
    ensures FirstIsHex(name, k)
  {
    MiddlePiece(name, k - 1);
    TakeSnoc(name, k - 1);
    TailOfSum(EscapeBytes(name[..k - 1]), EscapeByte(name[k - 1]));
    Assoc(Hex2(name[0]), EscapeBytes(name[..k - 1])[1..], EscapeByte(name[k - 1]));
  }

  lemma {:induction false} ReservedPieces(name: Bytes, k: nat)
    requires 0 < k < |name| && IsReservedStem(name)
    ensures EscapeBytes(name[..k]) != [] && EscapeBytes(name[..k])[0] == name[0]
    ensures Pieces(name, k) == Hex2(name[0]) + EscapeBytes(name[..k])[1..]
  {
    if k == 1 {
      ReservedFirst(name);
    } else {
      ReservedPieces(name, k - 1);
      ReservedNext(name, k);
    }
  }

  lemma {:induction false} TailOfSum(a: Bytes, b: Bytes)
    requires a != []
    ensures (a + b)[1..] == a[1..] + b
  {
  }

  /** The byte-wise escape with its last byte dealt with. */
  lemma {:induction false} LastPiece(name: Bytes)
    requires name != []
    ensures var n, b := |name|, name[|name| - 1];
            EscapeLast(EscapeBytes(name))
            == EscapeBytes(name[..n - 1]) + if b == SPACE || b == DOT then Hex2(b) else EscapeByte(b)
  {
    var init, b := name[..|name| - 1], name[|name| - 1];
    var s := EscapeBytes(name);
    EscapeBytesLast(name);
    if b == SPACE || b == DOT {
      assert s == EscapeBytes(init) + [b];
      assert s[..|s| - 1] == EscapeBytes(init);
    }
  }

  lemma {:induction false} FirstInHex(name: Bytes, s: Bytes)
    requires IsReservedStem(name) && s != [] && s[0] != PERCENT
    ensures EscapeFirst(name, s) == Hex2(s[0]) + s[1..]
  {
  }

  /** The last byte, which is not the first. */
  lemma {:induction false} PieceIsLast(name: Bytes)
    requires |name| >= 2
    ensures EscapeLast(EscapeBytes(name)) == EscapeBytes(name[..|name| - 1]) + Piece(name, |name| - 1)
  {
    LastPiece(name);
    PercentInHex();
  }

  lemma {:induction false} ReservedByteByByte(name: Bytes)
    requires IsReservedStem(name)
    ensures Escaped(name) == Pieces(name, |name|)
  {
    ReservedStart(name);
    PieceIsLast(name);
    var init, last := EscapeBytes(name[..|name| - 1]), Piece(name, |name| - 1);
    ReservedPieces(name, |name| - 1);
    FirstInHex(name, init + last);
    HeadInHex(init, last);
  }

  lemma {:induction false} HeadInHex(init: Bytes, last: Bytes)
    requires init != []
    ensures Hex2((init + last)[0]) + (init + last)[1..] == (Hex2(init[0]) + init[1..]) + last
  {
    TailOfSum(init, last);
    Assoc(Hex2(init[0]), init[1..], last);
  }

  /** Every byte comes out as itself exactly when it is kept, and as its hex triplet otherwise. */
  lemma {:induction false} EscapedByteByByte(name: Bytes)
    ensures Escaped(name) == Pieces(name, |name|)
  {
    if name != [] {
      if IsReservedStem(name) {
        ReservedByteByByte(name);
      } else {
        LastPiece(name);
        PercentInHex();
        PlainPieces(name, |name| - 1);
      }
    }
  }

  lemma {:induction false} PiecesLength(name: Bytes, n: nat)
    requires n <= |name|
    ensures |Pieces(name, n)| == n + 2 * Changed(name, n)
    ensures Changed(name, n) == 0 <==> forall i | 0 <= i < n :: Kept(name, i)
    ensures Changed(name, n) == 0 ==> Pieces(name, n) == name[..n]
  {
    if n > 0 { PiecesLength(name, n - 1); }
  }

  /** Each escaped byte costs two bytes. */
  lemma {:induction false} EscapedLength(name: Bytes)
    ensures |Escaped(name)| == |name| + 2 * Changed(name, |name|)
  {
    EscapedByteByByte(name);
    PiecesLength(name, |name|);
  }

  /** A name is left as it is exactly when Windows can take it and it has no '%'. */
  lemma {:induction false} LeftAlone(name: Bytes)
    ensures Escaped(name) == name <==> !WindowsUnsafe(name) && PERCENT !in name
  {
    EscapedByteByByte(name);
    PiecesLength(name, |name|);
    assert name[..|name|] == name;
    AllKept(name);
  }

  lemma {:induction false} AllKept(name: Bytes)
    ensures (forall i | 0 <= i < |name| :: Kept(name, i)) <==> !WindowsUnsafe(name) && PERCENT !in name
  {
    if forall i | 0 <= i < |name| :: Kept(name, i) {
      forall b | b in name ensures !Illegal(b) && b != PERCENT {
        var i :| 0 <= i < |name| && name[i] == b;
        assert Kept(name, i);
      }
      if name != [] { assert Kept(name, 0) && Kept(name, |name| - 1); }
    }
    if !WindowsUnsafe(name) && PERCENT !in name {
      forall i | 0 <= i < |name| ensures Kept(name, i) { assert name[i] in name; }
    }
  }

  /** Unescaping reads any triplet, in upper or lower case, as its byte, and every other byte as itself. */
  lemma {:induction false} UnescapeReads(h: Byte, l: Byte, rest: Bytes)
    requires h < 16 && l < 16
    ensures forall x, y | x in {UPPER_A, LOWER_A} && y in {UPPER_A, LOWER_A} ::
              Unescaped([PERCENT, HexDigit(h, x), HexDigit(l, y)] + rest) == [h * 16 + l] + Unescaped(rest)
  {
    forall x, y | x in {UPPER_A, LOWER_A} && y in {UPPER_A, LOWER_A}
      ensures Unescaped([PERCENT, HexDigit(h, x), HexDigit(l, y)] + rest) == [h * 16 + l] + Unescaped(rest)
    {
      var s := [PERCENT, HexDigit(h, x), HexDigit(l, y)] + rest;
      assert s[3..] == rest;
    }
  }

  /** :b becomes %3Ab, a% becomes a%25, and a. becomes a%2E. */
  lemma {:induction false} EscapeReads(x: Bytes)
    ensures x == [0x3A, 0x62] ==> Escaped(x) == [0x25, 0x33, 0x41] + [0x62]
    ensures x == [0x61, 0x25] ==> Escaped(x) == [0x61] + [0x25, 0x32, 0x35]
    ensures x == [0x61, 0x2E] ==> Escaped(x) == [0x61] + [0x25, 0x32, 0x45]
  {
    HexReads();
    if |x| == 2 {
      TwoBytes(x[0], x[1]);
      assert x == [x[0], x[1]];
    }
  }

  lemma {:induction false} HexReads()
    ensures Hex2(0x3A) == [0x25, 0x33, 0x41] && Hex2(0x25) == [0x25, 0x32, 0x35]
    ensures Hex2(0x2E) == [0x25, 0x32, 0x45] && Hex2(0x63) == [0x25, 0x36, 0x33]
  {
  }

  lemma {:induction false} TwoBytes(a: Byte, b: Byte)
    ensures Escaped([a, b]) == (if a == PERCENT || Illegal(a) then Hex2(a) else [a])
                               + if b == PERCENT || Illegal(b) || b in {SPACE, DOT} then Hex2(b) else [b]
  {
    var x := [a, b];
    if IsReservedStem(x) { ReservedStart(x); }
    EscapedTwo(x);
  }

  /** con becomes %63on: only the first byte of a device name changes. */
  lemma {:induction false} DeviceReads(x: Bytes)
    requires x == [0x63, 0x6F, 0x6E]
    ensures Escaped(x) == [0x25, 0x36, 0x33] + [0x6F] + [0x6E]
  {
    HexReads();
    ConIsReserved();
    EscapedThree(x);
  }

  lemma {:induction false} ConIsReserved()
    ensures IsReservedStem([0x63, 0x6F, 0x6E])
  {
    var n := [0x6E];
    assert StemOf(n) == n by { assert n[1..] == []; }
    var on := [0x6F, 0x6E];
    assert StemOf(on) == on by { assert on[1..] == n; }
    var con := [0x63, 0x6F, 0x6E];
    assert StemOf(con) == con by { assert con[1..] == on; }
    assert ToUpper(n) == [0x4E] by { assert n[1..] == []; }
    assert ToUpper(on) == [0x4F, 0x4E] by { assert on[1..] == n; }
    assert ToUpper(con) == [0x43, 0x4F, 0x4E] by { assert con[1..] == on; }
  }

  lemma {:induction false} EscapedTwo(x: Bytes)
    requires |x| == 2
    ensures Escaped(x) == Piece(x, 0) + Piece(x, 1)
  {
    EscapedByteByByte(x);
    assert Pieces(x, 1) == Pieces(x, 0) + Piece(x, 0) == Piece(x, 0);
  }

  lemma {:induction false} EscapedThree(x: Bytes)
    requires |x| == 3
    ensures Escaped(x) == Piece(x, 0) + Piece(x, 1) + Piece(x, 2)
  {
    EscapedByteByByte(x);
    assert Pieces(x, 1) == Pieces(x, 0) + Piece(x, 0) == Piece(x, 0);
    assert Pieces(x, 2) == Pieces(x, 1) + Piece(x, 1);
  }
}
