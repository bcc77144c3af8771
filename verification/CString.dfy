/** C-style quoting in the SQLite shell: output_c_string and its inverse, resolve_backslashes. */
module CString {
  import opened Bytes

  /** isprint in the C locale. */
  predicate Printable(c: byte) {
    32 <= c <= 126
  }

  /** How output_c_string writes one character. */
  function Escape(c: byte): (e: seq<byte>)
  {
    if c == BACKSLASH then [BACKSLASH, BACKSLASH]
    else if c == TAB then [BACKSLASH, LOWER_T]
    else if c == LF then [BACKSLASH, LOWER_N]
    else if c == CR then [BACKSLASH, LOWER_R]
    else if !Printable(c) then [BACKSLASH, DIGIT0 + c / 64, DIGIT0 + c / 8 % 8, DIGIT0 + c % 8]
    else [c]
  }

  function Body(s: seq<byte>): seq<byte> {
    if s == [] then [] else Escape(s[0]) + Body(s[1..])
  }

  /** output_c_string: the body between double quotes. */
  method OutputCString(z: seq<byte>) returns (out: seq<byte>)
    ensures out == [DQUOTE] + Body(z) + [DQUOTE]
  {
    out := [DQUOTE];
    var i := 0;
    while i < |z|
      invariant 0 <= i <= |z|
      invariant out + Body(z[i..]) == [DQUOTE] + Body(z)
    {
      var c := z[i];
      assert z[i..][1..] == z[i + 1..];
      assert out + (Escape(c) + Body(z[i + 1..])) == out + Escape(c) + Body(z[i + 1..]);
      i := i + 1;
      if c == BACKSLASH {
        out := out + [c, c];
      } else if c == TAB {
        out := out + [BACKSLASH, LOWER_T];
      } else if c == LF {
        out := out + [BACKSLASH, LOWER_N];
      } else if c == CR {
        out := out + [BACKSLASH, LOWER_R];
      } else if !Printable(c) {
        out := out + [BACKSLASH, DIGIT0 + c / 64, DIGIT0 + c / 8 % 8, DIGIT0 + c % 8];
      } else {
        out := out + [c];
      }
    }
    out := out + [DQUOTE];
  }

  predicate Octal(c: byte) {
    DIGIT0 <= c <= DIGIT0 + 7
  }

  /** The first unit of a string as resolve_backslashes reads it: the byte it stands for, and its length. */
  function Unit(s: seq<byte>): (u: (byte, nat))
    requires s != [] && s != [BACKSLASH]
    ensures 1 <= u.1 <= |s|
  {
    if s[0] != BACKSLASH then (s[0], 1)
    else if s[1] == LOWER_N then (LF, 2)
    else if s[1] == LOWER_T then (TAB, 2)
    else if s[1] == LOWER_R then (CR, 2)
    else if !Octal(s[1]) then (s[1], 2)
    else if !(|s| > 2 && Octal(s[2])) then (s[1] - DIGIT0, 2)
    else if !(|s| > 3 && Octal(s[3])) then ((s[1] - DIGIT0) * 8 + (s[2] - DIGIT0), 3)
    else ((((s[1] - DIGIT0) * 8 + (s[2] - DIGIT0)) * 8 + (s[3] - DIGIT0)) % 256, 4)
  }

  /** No backslash stands alone at the end. */
  predicate Complete(s: seq<byte>) {
    s == [] || (s != [BACKSLASH] && Complete(s[Unit(s).1..]))
  }

  function Resolve(s: seq<byte>): seq<byte>
    requires Complete(s)
  {
    if s == [] then [] else [Unit(s).0] + Resolve(s[Unit(s).1..])
  }

  /** The body of the loop up to the write: the byte that the unit at i stands for, and where it ends. */
  method ReadUnit(z: array<byte>, i: nat, ghost rest: seq<byte>) returns (c: byte, last: nat)
    requires i + |rest| < z.Length && z[i..i + |rest|] == rest && z[i + |rest|] == NUL && NulFree(rest)
    requires rest != [] && rest != [BACKSLASH]
    ensures i <= last && (c, last + 1 - i) == Unit(rest)
  {
    assert forall k :: 0 <= k < |rest| ==> z[i + k] == rest[k];
    c, last := z[i], i;
    if c == BACKSLASH {
      assert |rest| > 1;
      last := last + 1;
      c := z[last];
      if c == LOWER_N {
        c := LF;
      } else if c == LOWER_T {
        c := TAB;
      } else if c == LOWER_R {
        c := CR;
      } else if Octal(c) {
        c, last := ReadOctal(z, i, rest);
      }
    }
  }

  /** One to three octal digits after a backslash. */
  method ReadOctal(z: array<byte>, i: nat, ghost rest: seq<byte>) returns (c: byte, last: nat)
    requires i + |rest| < z.Length && z[i + |rest|] == NUL
    requires forall k :: 0 <= k < |rest| ==> z[i + k] == rest[k]
    requires |rest| > 1 && rest[0] == BACKSLASH && Octal(rest[1])
    ensures i <= last && (c, last + 1 - i) == Unit(rest)
  {
    last := i + 1;
    assert z[last] == rest[1];
    c := z[last] - DIGIT0;
    assert |rest| > 2 ==> z[last + 1] == rest[2];
    if Octal(z[last + 1]) {
      assert |rest| > 2;
      last := last + 1;
      c := (c * 8 + z[last] - DIGIT0) % 256;
      assert |rest| > 3 ==> z[last + 1] == rest[3];
      if Octal(z[last + 1]) {
        assert |rest| > 3;
        last := last + 1;
        c := (c * 8 + z[last] - DIGIT0) % 256;
      }
    }
  }

  lemma ResolveStep(done: seq<byte>, rest: seq<byte>)
    requires Complete(rest)
    ensures rest == [] ==> done + Resolve(rest) == done
    ensures rest != [] ==> rest != [BACKSLASH] && Complete(rest[Unit(rest).1..])
    ensures rest != [] ==>
      done + [Unit(rest).0] + Resolve(rest[Unit(rest).1..]) == done + Resolve(rest)
  {
  }

  /**
   resolve_backslashes, in place. The characters are signed or unsigned as the platform has it, but the
   tests only look for ASCII and the arithmetic is taken modulo 256. The write index never passes the
   read index, so that nothing is overwritten before it has been read.
   */
  method ResolveBackslashes(z: array<byte>, ghost s: seq<byte>)
    requires Holds(z[..], s) && Complete(s)
    modifies z
    ensures |Resolve(s)| <= |s|
    ensures z[..|Resolve(s)|] == Resolve(s) && z[|Resolve(s)|] == NUL
    ensures z[|s| + 1..] == old(z[|s| + 1..])
  {
    hide Complete, Resolve, Unit;
    var i, j := 0, 0;
    ghost var was, rest := z[..], s;
    assert Complete(s);
    while z[i] != NUL
      invariant 0 <= j <= i <= |s| && rest == s[i..]
      invariant forall k :: i <= k < z.Length ==> z[k] == was[k]
      invariant Complete(rest) && NulFree(rest)
      invariant z[..j] + Resolve(rest) == Resolve(s)
      decreases |s| - i
    {
      assert rest != [] && z[i..i + |rest|] == rest;
      ghost var done := z[..j];
      ResolveStep(done, rest);
      var c, last := ReadUnit(z, i, rest);
      z[j] := c;
      assert z[..j + 1] == done + [c];
      i, j := last + 1, j + 1;
      assert s[i..] == rest[Unit(rest).1..];
      rest := s[i..];
    }
    ResolveStep(z[..j], rest);
    z[j] := NUL;
  }

  // ---- in words ----

  /** How each byte is written: backslash, tab, newline and return by letter, the unprintable ones in octal. */
  lemma EscapeInWords(c: byte)
    ensures c == 92 ==> Escape(c) == [92, 92]
    ensures c == 9 ==> Escape(c) == [92, 116]
    ensures c == 10 ==> Escape(c) == [92, 110]
    ensures c == 13 ==> Escape(c) == [92, 114]
    ensures 32 <= c <= 126 && c != 92 ==> Escape(c) == [c]
    ensures !(32 <= c <= 126) && c != 9 && c != 10 && c != 13 ==>
      Escape(c) == [92, 48 + c / 64, 48 + c / 8 % 8, 48 + c % 8]
  {
  }

  predicate NoDigit(rest: seq<byte>) {
    rest == [] || !(48 <= rest[0] <= 55)
  }

  /**
   How each unit is read: letters, one to three octal digits, as many as there are, any other byte after a
   backslash as itself, and any other byte as itself.
   */
  lemma UnitInWords(c: byte, a: byte, b: byte, d: byte, rest: seq<byte>)
    requires a < 8 && b < 8 && d < 8
    ensures c != 92 ==> ([c] + rest)[0] != 92 && Unit([c] + rest) == (c, 1)
    ensures Unit([92, 110] + rest) == (10, 2)
    ensures Unit([92, 116] + rest) == (9, 2)
    ensures Unit([92, 114] + rest) == (13, 2)
    ensures !(48 <= c <= 55) && c != 110 && c != 116 && c != 114 ==> Unit([92, c] + rest) == (c, 2)
    ensures NoDigit(rest) ==> Unit([92, 48 + a] + rest) == (a, 2)
    ensures NoDigit(rest) ==> Unit([92, 48 + a, 48 + b] + rest) == (8 * a + b, 3)
    ensures Unit([92, 48 + a, 48 + b, 48 + d] + rest) == ((64 * a + 8 * b + d) % 256, 4)
  {
    PlainUnits(c, rest);
    OctalUnits(a, b, d, rest);
  }

  lemma PlainUnits(c: byte, rest: seq<byte>)
    ensures c != 92 ==> ([c] + rest)[0] != 92 && Unit([c] + rest) == (c, 1)
    ensures Unit([92, 110] + rest) == (10, 2)
    ensures Unit([92, 116] + rest) == (9, 2)
    ensures Unit([92, 114] + rest) == (13, 2)
    ensures !(48 <= c <= 55) && c != 110 && c != 116 && c != 114 ==> Unit([92, c] + rest) == (c, 2)
  {
  }

  lemma OctalUnits(a: byte, b: byte, d: byte, rest: seq<byte>)
    requires a < 8 && b < 8 && d < 8
    ensures NoDigit(rest) ==> Unit([92, 48 + a] + rest) == (a, 2)
    ensures NoDigit(rest) ==> Unit([92, 48 + a, 48 + b] + rest) == (8 * a + b, 3)
    ensures Unit([92, 48 + a, 48 + b, 48 + d] + rest) == ((64 * a + 8 * b + d) % 256, 4)
  {
    var one, two, three := [92, 48 + a] + rest, [92, 48 + a, 48 + b] + rest, [92, 48 + a, 48 + b, 48 + d] + rest;
    assert one[0] == 92 && one[1] == 48 + a && (rest != [] ==> one[2] == rest[0]);
    assert two[0] == 92 && two[1] == 48 + a && two[2] == 48 + b && (rest != [] ==> two[3] == rest[0]);
    assert three[0] == 92 && three[1] == 48 + a && three[2] == 48 + b && three[3] == 48 + d;
  }

  // ---- round trip ----

  /** Three octal digits stand for their number. */
  lemma UnitOfOctal(c: byte, rest: seq<byte>)
    ensures Unit([BACKSLASH, DIGIT0 + c / 64, DIGIT0 + c / 8 % 8, DIGIT0 + c % 8] + rest) == (c, 4)
  {
    var t := [BACKSLASH, DIGIT0 + c / 64, DIGIT0 + c / 8 % 8, DIGIT0 + c % 8] + rest;
    assert t[0] == BACKSLASH && t[1] == DIGIT0 + c / 64 && t[2] == DIGIT0 + c / 8 % 8 && t[3] == DIGIT0 + c % 8;
  }

  lemma UnitOfEscape(c: byte, rest: seq<byte>)
    requires c != NUL
    ensures Escape(c) + rest != [] && Escape(c) + rest != [BACKSLASH]
    ensures Unit(Escape(c) + rest) == (c, |Escape(c)|)
  {
    var e := Escape(c);
    var t := e + rest;
    assert t[0] == e[0] && (|e| > 1 || e[0] != BACKSLASH);
    if |e| > 1 {
      assert |t| > 1 && t[1] == e[1];
    }
    if |e| == 4 {
      UnitOfOctal(c, rest);
    }
  }

  /** What output_c_string prints between the quotes, resolve_backslashes turns back into the string. */
  lemma {:induction false} RoundTrip(s: seq<byte>)
    requires NulFree(s)
    ensures NulFree(Body(s)) && Complete(Body(s)) && Resolve(Body(s)) == s
  {
    if s != [] {
      RoundTrip(s[1..]);
      UnitOfEscape(s[0], Body(s[1..]));
      assert Body(s)[|Escape(s[0])|..] == Body(s[1..]);
    }
  }

  /** Printing and resolving through the two functions themselves, in one buffer. */
  method PrintAndResolve(s: seq<byte>, z: array<byte>)
    requires NulFree(s) && |Body(s)| < z.Length
    modifies z
    ensures |s| < z.Length && z[..|s|] == s && z[|s|] == NUL
  {
    RoundTrip(s);
    var out := OutputCString(s);
    var body := out[1..|out| - 1];
    assert body == Body(s);
    forall k | 0 <= k < |body| {
      z[k] := body[k];
    }
    z[|body|] := NUL;
    ResolveBackslashes(z, body);
  }
}
