/** Quoting by doubling in the SQLite shell: output_quoted_string, appendText and set_table_name. */
module Quoting {
  import opened Bytes

  datatype Option<T> = None | Some(value: T)

  /** Every quote written twice. */
  function Doubled(s: seq<byte>, q: byte): (d: seq<byte>) {
    if s == [] then [] else if s[0] == q then [q, q] + Doubled(s[1..], q) else [s[0]] + Doubled(s[1..], q)
  }

  function Quoted(s: seq<byte>, q: byte): seq<byte> {
    [q] + Doubled(s, q) + [q]
  }

  /**
   How a reader takes a quoted string, after its opening quote: two quotes stand for one, a single one
   ends the string. Gives the string and what follows the closing quote.
   */
  function Scan(t: seq<byte>, q: byte): (r: Option<(seq<byte>, seq<byte>)>)
  {
    if t == [] then None
    else if t[0] != q then Prefix(t[0], Scan(t[1..], q))
    else if |t| > 1 && t[1] == q then Prefix(q, Scan(t[2..], q))
    else Some(([], t[1..]))
  }

  function Prefix(c: byte, r: Option<(seq<byte>, seq<byte>)>): Option<(seq<byte>, seq<byte>)> {
    match r
    case None => None
    case Some(p) => Some(([c] + p.0, p.1))
  }

  predicate Starts(t: seq<byte>, q: byte) {
    t != [] && t[0] == q
  }

  /** Undoubling recovers the string, and finds its end wherever it stands. */
  lemma {:induction false} ScanQuoted(s: seq<byte>, q: byte, rest: seq<byte>)
    requires !Starts(rest, q)
    ensures Scan(Doubled(s, q) + [q] + rest, q) == Some((s, rest))
  {
    var t := Doubled(s, q) + [q] + rest;
    if s == [] {
      assert t == [q] + rest;
    } else {
      ScanQuoted(s[1..], q, rest);
      assert s == [s[0]] + s[1..];
      var d := Doubled(s[1..], q) + [q] + rest;
      if s[0] == q {
        assert t == [q, q] + d && t[2..] == d;
      } else {
        assert t == [s[0]] + d && t[1..] == d;
      }
    }
  }

  /** Whatever a reader accepts as a quoted string is one that doubling prints. */
  lemma {:induction false} ScannedIsQuoted(t: seq<byte>, q: byte)
    ensures Scan(t, q).Some? ==>
      var (s, rest) := Scan(t, q).value; t == Doubled(s, q) + [q] + rest && !Starts(rest, q)
  {
    if t == [] {
    } else if t[0] != q {
      ScannedIsQuoted(t[1..], q);
    } else if |t| > 1 && t[1] == q {
      ScannedIsQuoted(t[2..], q);
    }
  }

  // ---- output_quoted_string ----

  lemma {:induction false} DoubledConcat(a: seq<byte>, b: seq<byte>, q: byte)
    ensures Doubled(a + b, q) == Doubled(a, q) + Doubled(b, q)
  {
    if a == [] {
      assert a + b == b;
    } else {
      assert (a + b)[1..] == a[1..] + b;
      DoubledConcat(a[1..], b, q);
    }
  }

  lemma {:induction false} DoubledPlain(s: seq<byte>, q: byte)
    requires q !in s
    ensures Doubled(s, q) == s
  {
    if s != [] {
      DoubledPlain(s[1..], q);
    }
  }

  /** A string up to a quote or the end, and what stands there. */
  lemma DoubledSpan(z: seq<byte>, i: nat, q: byte)
    requires i <= |z| && q !in z[..i]
    ensures i == |z| ==> Doubled(z, q) == z
    ensures i < |z| && z[i] == q ==> Doubled(z, q) == z[..i] + [q, q] + Doubled(z[i + 1..], q)
  {
    DoubledPlain(z[..i], q);
    DoubledConcat(z[..i], z[i..], q);
    assert z == z[..i] + z[i..];
    if i < |z| {
      assert z[i..][1..] == z[i + 1..];
    }
  }

  method OutputQuotedString(s: seq<byte>) returns (out: seq<byte>)
    ensures out == Quoted(s, SQUOTE)
  {
    var z, nSingle := s, 0;
    for i := 0 to |z|
      invariant nSingle >= 0
      invariant nSingle == 0 <==> SQUOTE !in z[..i]
    {
      assert z[..i + 1] == z[..i] + [z[i]];
      if z[i] == SQUOTE {
        nSingle := nSingle + 1;
      }
    }
    if nSingle == 0 {
      assert z[..|z|] == z;
      DoubledPlain(z, SQUOTE);
      out := [SQUOTE] + z + [SQUOTE];
    } else {
      out := [SQUOTE];
      while z != []
        invariant out + Doubled(z, SQUOTE) == [SQUOTE] + Doubled(s, SQUOTE)
        decreases |z|
      {
        var i := 0;
        while i < |z| && z[i] != SQUOTE
          invariant i <= |z| && SQUOTE !in z[..i]
        {
          assert z[..i + 1] == z[..i] + [z[i]];
          i := i + 1;
        }
        DoubledSpan(z, i, SQUOTE);
        if i == 0 {
          out := out + [SQUOTE, SQUOTE];
          z := z[1..];
        } else if i < |z| {
          out := out + (z[..i] + [SQUOTE, SQUOTE]);
          z := z[i + 1..];
        } else {
          out := out + z;
          z := [];
        }
      }
      out := out + [SQUOTE];
    }
  }

  // ---- two passes: count, then fill ----

  lemma DoubledSnoc(s: seq<byte>, i: nat, q: byte)
    requires i < |s|
    ensures Doubled(s[..i + 1], q) == Doubled(s[..i], q) + if s[i] == q then [q, q] else [s[i]]
    ensures |Doubled(s[..i + 1], q)| <= |Doubled(s, q)|
  {
    assert s[..i + 1] == s[..i] + [s[i]] && s[..i + 1][..i] == s[..i];
    DoubledConcat(s[..i], [s[i]], q);
    assert s == s[..i + 1] + s[i + 1..];
    DoubledConcat(s[..i + 1], s[i + 1..], q);
  }

  lemma {:induction false} DoubledNulFree(s: seq<byte>, q: byte)
    requires NulFree(s) && q != NUL
    ensures NulFree(Doubled(s, q))
  {
    if s != [] {
      DoubledNulFree(s[1..], q);
    }
  }

  /** The counting pass. */
  method CountQuotes(s: seq<byte>, q: byte) returns (n: nat)
    ensures |s| + n == |Doubled(s, q)|
  {
    n := 0;
    for i := 0 to |s|
      invariant i + n == |Doubled(s[..i], q)|
    {
      DoubledSnoc(s, i, q);
      if s[i] == q {
        n := n + 1;
      }
    }
    assert s[..|s|] == s;
  }

  /** The filling pass, from a given position on. */
  method FillDoubled(z: array<byte>, start: nat, s: seq<byte>, q: byte) returns (n: nat)
    requires start + |Doubled(s, q)| <= z.Length
    modifies z
    ensures n == start + |Doubled(s, q)| && z[start..n] == Doubled(s, q)
    ensures forall k :: 0 <= k < z.Length && !(start <= k < n) ==> z[k] == old(z[k])
  {
    n := start;
    for i := 0 to |s|
      invariant n == start + |Doubled(s[..i], q)| <= z.Length
      invariant z[start..n] == Doubled(s[..i], q)
      invariant forall k :: 0 <= k < z.Length && !(start <= k < n) ==> z[k] == old(z[k])
    {
      DoubledSnoc(s, i, q);
      ghost var done := z[start..n];
      z[n] := s[i];
      n := n + 1;
      if s[i] == q {
        z[n] := q;
        n := n + 1;
      }
      assert z[start..n] == done + if s[i] == q then [q, q] else [s[i]];
    }
    assert s[..|s|] == s;
  }

  /** The text in quotes and its terminator, from a given position to the end of the block. */
  method FillQuoted(z: array<byte>, start: nat, s: seq<byte>, q: byte) returns (n: nat)
    requires start + |Quoted(s, q)| < z.Length
    modifies z
    ensures n == start + |Quoted(s, q)| + 1 && z[start..n] == Quoted(s, q) + [NUL]
    ensures forall k :: 0 <= k < start ==> z[k] == old(z[k])
  {
    n := start;
    z[n] := q;
    n := FillDoubled(z, n + 1, s, q);
    ghost var doubled := Doubled(s, q);
    assert forall k :: 0 <= k < |doubled| ==> z[start + 1 + k] == z[start + 1..n][k] == doubled[k];
    hide Doubled;
    z[n] := q;
    z[n + 1] := NUL;
    n := n + 2;
    ghost var text := Quoted(s, q) + [NUL];
    forall k | 0 <= k < |text|
      ensures z[start + k] == text[k]
    {
      if 1 <= k <= |doubled| {
        assert text[k] == doubled[k - 1] && z[start + 1 + (k - 1)] == doubled[k - 1];
      }
    }
    assert z[start..n] == text;
  }

  /**
   appendText. The block at zIn holds the string sIn, no block the empty string. When the memory is not
   granted there is no result and the block at zIn stays as it was.
   */
  method AppendText(zIn: array?<byte>, ghost sIn: seq<byte>, zAppend: seq<byte>, quote: byte, granted: bool)
    returns (z: array?<byte>)
    requires if zIn == null then sIn == [] else Holds(zIn[..], sIn)
    requires NulFree(zAppend)
    ensures z != null <==> granted
    ensures granted ==> fresh(z) && var text := sIn + if quote == NUL then zAppend else Quoted(zAppend, quote);
                        z.Length == |text| + 1 && Holds(z[..], text)
  {
    var nIn, nAppend := 0, |zAppend|;
    if zIn != null {
      nIn := StringLength(zIn, sIn);
    }
    var len := nAppend + nIn + 1;
    if quote != NUL {
      var n := CountQuotes(zAppend, quote);
      len := len + 2 + n;
      DoubledNulFree(zAppend, quote);
      assert |Quoted(zAppend, quote)| == len - nIn - 1 && NulFree(Quoted(zAppend, quote));
    }
    if !granted {
      return null;
    }
    z := Reallocate(zIn, nIn, len);
    assert forall k :: 0 <= k < nIn ==> z[k] == sIn[k];
    ghost var text := if quote == NUL then zAppend else Quoted(zAppend, quote);
    hide Quoted;
    if quote != NUL {
      var n := FillQuoted(z, nIn, zAppend, quote);
      assert n == len;
    } else {
      forall k | 0 <= k < nAppend {
        z[nIn + k] := zAppend[k];
      }
      z[len - 1] := NUL;
    }
    assert z[nIn..] == text + [NUL];
    HoldsAppended(z[..], sIn, text);
  }

  lemma HoldsAppended(buffer: seq<byte>, s: seq<byte>, text: seq<byte>)
    requires NulFree(s) && NulFree(text) && |s| <= |buffer|
    requires buffer[..|s|] == s && buffer[|s|..] == text + [NUL]
    ensures |buffer| == |s + text| + 1 && Holds(buffer, s + text)
  {
    assert buffer == s + (text + [NUL]);
  }

  /** strlen. */
  method StringLength(z: array<byte>, ghost s: seq<byte>) returns (n: nat)
    requires Holds(z[..], s)
    ensures n == |s|
  {
    n := 0;
    assert forall k :: 0 <= k < |s| ==> z[..][..|s|][k] == s[k];
    while z[n] != NUL
      invariant n <= |s|
      decreases |s| - n
    {
      n := n + 1;
    }
  }

  /** realloc to a larger block, of which the first bytes are in use. */
  method Reallocate(zIn: array?<byte>, used: nat, len: nat) returns (z: array<byte>)
    requires used <= len
    requires zIn != null ==> used <= zIn.Length
    requires zIn == null ==> used == 0
    ensures fresh(z) && z.Length == len
    ensures zIn != null ==> z[..used] == zIn[..used]
  {
    z := new byte[len];
    if zIn != null {
      forall k | 0 <= k < used {
        z[k] := zIn[k];
      }
    }
  }

  // ---- set_table_name ----

  /** isalpha and isalnum in the C locale. */
  predicate Alpha(c: byte) {
    65 <= c <= 90 || 97 <= c <= 122
  }

  predicate WordByte(c: byte) {
    Alpha(c) || 48 <= c <= 57 || c == UNDERSCORE
  }

  /** The name can stand in a statement as it is. */
  predicate Identifier(s: seq<byte>) {
    s != [] && (Alpha(s[0]) || s[0] == UNDERSCORE) && forall i :: 0 <= i < |s| ==> WordByte(s[i])
  }

  function TableName(s: seq<byte>): seq<byte> {
    if Identifier(s) then s else Quoted(s, SQUOTE)
  }

  /** The first pass: does the name need quotes, and how many bytes will it take? */
  method MeasureName(s: seq<byte>) returns (needQuote: bool, n: nat)
    ensures needQuote == !Identifier(s) && n == |Doubled(s, SQUOTE)| + if needQuote then 2 else 0
    ensures !needQuote ==> Doubled(s, SQUOTE) == s
  {
    needQuote := s == [] || !(Alpha(s[0]) || s[0] == UNDERSCORE);
    n := 0;
    for i := 0 to |s|
      invariant n == |Doubled(s[..i], SQUOTE)|
      invariant needQuote <==>
        (s == [] || !(Alpha(s[0]) || s[0] == UNDERSCORE) || exists k :: 0 <= k < i && !WordByte(s[k]))
    {
      DoubledSnoc(s, i, SQUOTE);
      if !WordByte(s[i]) {
        needQuote := true;
        if s[i] == SQUOTE {
          n := n + 1;
        }
      }
      n := n + 1;
    }
    assert s[..|s|] == s;
    assert needQuote <==> !Identifier(s);
    if needQuote {
      n := n + 2;
    } else {
      DoubledPlain(s, SQUOTE);
    }
  }

  /** Which names are stored bare: a letter or underscore, and then letters, digits and underscores. */
  lemma BareNameExactly(s: seq<byte>)
    ensures TableName(s) == s <==>
      && s != [] && (65 <= s[0] <= 90 || 97 <= s[0] <= 122 || s[0] == 95)
      && forall i :: 0 <= i < |s| ==>
           65 <= s[i] <= 90 || 97 <= s[i] <= 122 || 48 <= s[i] <= 57 || s[i] == 95
    ensures TableName(s) != s ==> TableName(s) == [39] + Doubled(s, 39) + [39]
  {
    if !Identifier(s) && TableName(s) == s {
      DoubledShorter(s, SQUOTE);
      assert false;
    }
  }

  lemma {:induction false} DoubledShorter(s: seq<byte>, q: byte)
    ensures |s| <= |Doubled(s, q)|
  {
    if s != [] {
      DoubledShorter(s[1..], q);
    }
  }

  class ShellState {
    var zDestTable: array?<byte>

    constructor ()
      ensures zDestTable == null
    {
      zDestTable := null;
    }

    method SetTableName(zName: Option<seq<byte>>)
      requires zName.Some? ==> NulFree(zName.value)
      modifies this
      ensures zName.None? ==> zDestTable == null
      ensures zName.Some? ==>
        zDestTable != null && fresh(zDestTable) && zDestTable.Length == |TableName(zName.value)| + 1 &&
        Holds(zDestTable[..], TableName(zName.value))
    {
      hide Doubled, Identifier;
      zDestTable := null;
      if zName.None? {
        return;
      }
      var s := zName.value;
      var needQuote, n := MeasureName(s);
      var z := new byte[n + 1];
      ghost var total := n;
      n := 0;
      if needQuote {
        z[n] := SQUOTE;
        n := n + 1;
      }
      n := FillDoubled(z, n, s, SQUOTE);
      if needQuote {
        z[n] := SQUOTE;
        n := n + 1;
      }
      z[n] := NUL;
      assert n == total;
      DoubledNulFree(s, SQUOTE);
      assert z[..n] == TableName(s);
      zDestTable := z;
    }
  }

  /** How a statement is read: a quoted name, or an identifier that is no reserved word. */
  function ReadName(t: seq<byte>, reserved: seq<byte> -> bool): Option<seq<byte>> {
    if Identifier(t) then if reserved(t) then None else Some(t)
    else if !Starts(t, SQUOTE) then None
    else match Scan(t[1..], SQUOTE)
      case Some(p) => if p.1 == [] then Some(p.0) else None
      case None => None
  }

  /** The stored name denotes the table it was made from, except for a reserved word, which is stored bare. */
  lemma TableNameDenotes(s: seq<byte>, reserved: seq<byte> -> bool)
    ensures ReadName(TableName(s), reserved) == Some(s) <==> !(Identifier(s) && reserved(s))
  {
    ScanQuoted(s, SQUOTE, []);
    var d := Doubled(s, SQUOTE) + [SQUOTE];
    assert d + [] == d && Quoted(s, SQUOTE)[1..] == d;
  }

  /** Conversely, every name that is read is the stored form of what it denotes, or an identifier in quotes. */
  lemma NameDenoted(t: seq<byte>, reserved: seq<byte> -> bool)
    requires ReadName(t, reserved).Some?
    ensures var s := ReadName(t, reserved).value; t == TableName(s) || (Identifier(s) && t == Quoted(s, SQUOTE))
  {
    if !Identifier(t) {
      ScannedIsQuoted(t[1..], SQUOTE);
      var s := ReadName(t, reserved).value;
      assert t == [SQUOTE] + t[1..];
      assert t == [SQUOTE] + (Doubled(s, SQUOTE) + [SQUOTE] + []);
    }
  }
}
