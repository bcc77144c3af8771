/** CSV output in the SQLite shell, and a strict reader of it for separators of one character. */
module Csv {
  import opened Bytes
  import opened Quoting

  type Text = seq<byte>

  /** A field of a row, None for NULL. */
  type Row = seq<Option<Text>>

  /** The separator, and what is printed for NULL. */
  datatype Format = Format(separator: Text, nullvalue: Text)

  /** The table needCsvQuote. */
  predicate NeedCsvQuote(c: byte) {
    c <= SPACE || c == DQUOTE || c == SQUOTE || c >= 127
  }

  /**
   The test for the separator at position i. A longer separator is compared with the beginning of the field,
   wherever its first character has been found.
   */
  predicate SeparatorSeen(z: Text, separator: Text, i: nat)
    requires i < |z|
  {
    separator != [] && z[i] == separator[0] && (|separator| == 1 || separator <= z)
  }

  predicate NeedsQuotes(z: Text, separator: Text) {
    z == [] || exists i :: 0 <= i < |z| && (NeedCsvQuote(z[i]) || SeparatorSeen(z, separator, i))
  }

  function Term(z: Option<Text>, p: Format): Text {
    if z.None? then p.nullvalue
    else if NeedsQuotes(z.value, p.separator) then Quoted(z.value, DQUOTE)
    else z.value
  }

  /** The terms of one row, with separators between them. */
  function Terms(row: Row, p: Format): Text {
    if row == [] then []
    else Term(row[0], p) + (if |row| > 1 then p.separator else []) + Terms(row[1..], p)
  }

  function Line(row: Row, p: Format): Text {
    Terms(row, p) + [LF]
  }

  function Lines(rows: seq<Row>, p: Format): Text {
    if rows == [] then [] else Line(rows[0], p) + Lines(rows[1..], p)
  }

  /**
   Which fields are printed bare: those that are not empty, consist of printable ASCII without space and
   without quotes of either kind, and do not hold a separator of one byte or begin with a longer one.
   */
  lemma BareExactly(z: Text, p: Format)
    ensures Term(Some(z), p) == z <==>
      && z != []
      && (forall i :: 0 <= i < |z| ==> 33 <= z[i] <= 126 && z[i] != 34 && z[i] != 39)
      && (|p.separator| == 1 ==> p.separator[0] !in z)
      && (|p.separator| > 1 ==> !(p.separator <= z))
    ensures Term(Some(z), p) != z ==> Term(Some(z), p) == [34] + Doubled(z, 34) + [34]
  {
    DoubledShorter(z, DQUOTE);
    if |p.separator| > 1 && p.separator <= z {
      assert SeparatorSeen(z, p.separator, 0);
    }
    if |p.separator| == 1 && p.separator[0] in z {
      var i :| 0 <= i < |z| && z[i] == p.separator[0];
      assert SeparatorSeen(z, p.separator, i);
    }
  }

  // ---- printing ----

  /** The field in double quotes, with those in it doubled. */
  method OutputQuoted(out: Text, s: Text) returns (next: Text)
    ensures next == out + Quoted(s, DQUOTE)
  {
    next := out + [DQUOTE];
    for i := 0 to |s|
      invariant next == out + [DQUOTE] + Doubled(s[..i], DQUOTE)
    {
      DoubledSnoc(s, i, DQUOTE);
      if s[i] == DQUOTE {
        next := next + [DQUOTE];
      }
      next := next + [s[i]];
    }
    assert s[..|s|] == s;
    next := next + [DQUOTE];
  }

  /** output_csv: one term, appended to the output. */
  method OutputCsv(out: Text, z: Option<Text>, p: Format, bSep: bool) returns (next: Text)
    ensures next == out + Term(z, p) + if bSep then p.separator else []
  {
    next := out;
    if z.None? {
      next := next + p.nullvalue;
    } else {
      var s, i := z.value, 0;
      while i < |s|
        invariant i <= |s|
        invariant forall k :: 0 <= k < i ==> !NeedCsvQuote(s[k]) && !SeparatorSeen(s, p.separator, k)
      {
        if NeedCsvQuote(s[i]) || SeparatorSeen(s, p.separator, i) {
          assert NeedsQuotes(s, p.separator);
          i := 0;
          break;
        }
        i := i + 1;
      }
      assert i == 0 <==> NeedsQuotes(s, p.separator);
      if i == 0 {
        next := OutputQuoted(next, s);
      } else {
        next := next + s;
      }
    }
    if bSep {
      next := next + p.separator;
    }
  }

  /** A row in CSV mode. */
  method OutputRow(out: Text, row: Row, p: Format) returns (next: Text)
    ensures next == out + Line(row, p)
  {
    hide Term;
    next := out;
    for i := 0 to |row|
      invariant next + Terms(row[i..], p) == out + Terms(row, p)
    {
      assert row[i..][1..] == row[i + 1..] && row[i..][0] == row[i];
      ghost var before, separation := next, if i < |row| - 1 then p.separator else [];
      next := OutputCsv(next, row[i], p, i < |row| - 1);
      assert next == before + Term(row[i], p) + separation;
      assert Terms(row[i..], p) == Term(row[i], p) + separation + Terms(row[i + 1..], p);
    }
    assert next == out + Terms(row, p);
    next := next + [LF];
  }

  // ---- reading: section 2 of RFC 4180, with this separator and a bare newline after each record ----

  /** TEXTDATA: printable ASCII other than the double quote and the separator. */
  predicate TextData(c: byte, separator: byte) {
    32 <= c <= 126 && c != DQUOTE && c != separator
  }

  /** The longest run of TEXTDATA, and what follows. */
  function ScanPlain(t: Text, separator: byte): (r: (Text, Text)) {
    if t == [] || !TextData(t[0], separator) then ([], t)
    else var r := ScanPlain(t[1..], separator); ([t[0]] + r.0, r.1)
  }

  function ReadField(t: Text, separator: byte): Option<(Text, Text)> {
    if Starts(t, DQUOTE) then Scan(t[1..], DQUOTE) else Some(ScanPlain(t, separator))
  }

  lemma {:induction false} ScanShrinks(t: Text, q: byte)
    ensures Scan(t, q).Some? ==> |Scan(t, q).value.1| < |t|
  {
    if t != [] {
      ScanShrinks(t[1..], q);
      if |t| > 1 {
        ScanShrinks(t[2..], q);
      }
    }
  }

  lemma {:induction false} ScanPlainShrinks(t: Text, separator: byte)
    ensures |ScanPlain(t, separator).1| <= |t|
  {
    if t != [] {
      ScanPlainShrinks(t[1..], separator);
    }
  }

  /**
   A record: fields up to a newline, and what follows it. A double quote inside a plain field is refused.
   A newline that ends the text ends the record, even if newline is the separator.
   */
  function ReadRecord(t: Text, separator: byte): Option<(seq<Text>, Text)>
    decreases |t|
  {
    ReadFieldShrinks(t, separator);
    match ReadField(t, separator)
    case None => None
    case Some(p) =>
      if Starts(p.1, separator) && p.1 != [LF] then (
        match ReadRecord(p.1[1..], separator)
        case None => None
        case Some(r) => Some(([p.0] + r.0, r.1))
      )
      else if Starts(p.1, LF) then Some(([p.0], p.1[1..]))
      else None
  }

  lemma ReadFieldShrinks(t: Text, separator: byte)
    ensures ReadField(t, separator).Some? ==> |ReadField(t, separator).value.1| <= |t|
  {
    if Starts(t, DQUOTE) {
      ScanShrinks(t[1..], DQUOTE);
    } else {
      ScanPlainShrinks(t, separator);
    }
  }

  lemma {:induction false} ReadRecordShrinks(t: Text, separator: byte)
    ensures ReadRecord(t, separator).Some? ==> |ReadRecord(t, separator).value.1| < |t|
    decreases |t|
  {
    ReadFieldShrinks(t, separator);
    if ReadField(t, separator).Some? {
      var p := ReadField(t, separator).value;
      if Starts(p.1, separator) && p.1 != [LF] {
        ReadRecordShrinks(p.1[1..], separator);
      }
    }
  }

  function ReadTable(t: Text, separator: byte): Option<seq<seq<Text>>>
    decreases |t|
  {
    if t == [] then Some([])
    else
      ReadRecordShrinks(t, separator);
      match ReadRecord(t, separator)
      case None => None
      case Some(p) =>
        match ReadTable(p.1, separator)
        case None => None
        case Some(rows) => Some([p.0] + rows)
  }

  // ---- what is printed reads back ----

  lemma {:induction false} ScanPlainSplits(z: Text, separator: byte, rest: Text)
    requires forall i :: 0 <= i < |z| ==> TextData(z[i], separator)
    requires rest != [] && !TextData(rest[0], separator)
    ensures ScanPlain(z + rest, separator) == (z, rest)
  {
    if z == [] {
      assert z + rest == rest;
    } else {
      assert (z + rest)[1..] == z[1..] + rest;
      ScanPlainSplits(z[1..], separator, rest);
      assert z == [z[0]] + z[1..];
    }
  }

  predicate OneByte(p: Format) {
    |p.separator| == 1
  }

  function Sep(p: Format): byte
    requires OneByte(p)
  {
    p.separator[0]
  }

  /** Null values that read back as themselves. */
  predicate PlainNull(p: Format)
    requires OneByte(p)
  {
    forall i :: 0 <= i < |p.nullvalue| ==> TextData(p.nullvalue[i], Sep(p))
  }

  predicate NoNull(row: Row) {
    forall i :: 0 <= i < |row| ==> row[i].Some?
  }

  /** The text of each field. */
  function Shown(row: Row, p: Format): (texts: seq<Text>)
    ensures |texts| == |row|
  {
    seq(|row|, i requires 0 <= i < |row| => if row[i].None? then p.nullvalue else row[i].value)
  }

  lemma QuotedReads(z: Text, separator: byte, rest: Text)
    requires !Starts(rest, DQUOTE)
    ensures ReadField(Quoted(z, DQUOTE) + rest, separator) == Some((z, rest))
  {
    ScanQuoted(z, DQUOTE, rest);
    assert Quoted(z, DQUOTE) + rest == [DQUOTE] + (Doubled(z, DQUOTE) + [DQUOTE] + rest);
  }

  lemma PlainReads(z: Text, separator: byte, rest: Text)
    requires separator != DQUOTE && forall i :: 0 <= i < |z| ==> TextData(z[i], separator)
    requires Starts(rest, separator) || Starts(rest, LF)
    ensures ReadField(z + rest, separator) == Some((z, rest))
  {
    assert (z + rest)[0] == if z == [] then rest[0] else z[0];
    ScanPlainSplits(z, separator, rest);
  }

  lemma TermReads(z: Option<Text>, p: Format, rest: Text)
    requires OneByte(p) && Sep(p) != DQUOTE && (z.Some? || PlainNull(p))
    requires Starts(rest, Sep(p)) || Starts(rest, LF)
    ensures ReadField(Term(z, p) + rest, Sep(p)) == Some((if z.None? then p.nullvalue else z.value, rest))
  {
    hide ReadField;
    if z.None? {
      PlainReads(p.nullvalue, Sep(p), rest);
    } else if NeedsQuotes(z.value, p.separator) {
      QuotedReads(z.value, Sep(p), rest);
    } else {
      PlainReads(z.value, Sep(p), rest);
    }
  }

  /** One step of the reader, over a field with more fields after it. */
  lemma RecordStep(t: Text, z: Text, separator: byte, tail: Text, texts: seq<Text>, rest: Text)
    requires ReadField(t, separator) == Some((z, [separator] + tail)) && tail != []
    requires ReadRecord(tail, separator) == Some((texts, rest))
    ensures ReadRecord(t, separator) == Some(([z] + texts, rest))
  {
    assert ([separator] + tail)[1..] == tail;
  }

  /** A printed row reads back as its texts, whatever the fields hold and whatever follows the line. */
  lemma {:induction false} RowReads(row: Row, p: Format, rest: Text)
    requires OneByte(p) && row != [] && Sep(p) != DQUOTE && (Sep(p) == LF ==> rest == [])
    requires NoNull(row) || PlainNull(p)
    ensures ReadRecord(Line(row, p) + rest, Sep(p)) == Some((Shown(row, p), rest))
  {
    hide Term, ReadField, PlainNull;
    var z, t := row[0], Line(row, p) + rest;
    var text := if z.None? then p.nullvalue else z.value;
    assert Shown(row, p) == [text] + Shown(row[1..], p);
    if |row| == 1 {
      assert Shown(row, p) == [text] && Terms(row[1..], p) == [];
      TermReads(z, p, [LF] + rest);
      assert t == Term(z, p) + ([LF] + rest);
      assert ([LF] + rest)[1..] == rest && ([LF] + rest == [LF] || Sep(p) != LF);
    } else {
      var tail := Line(row[1..], p) + rest;
      TermReads(z, p, [Sep(p)] + tail);
      assert t == Term(z, p) + ([Sep(p)] + tail);
      RowReads(row[1..], p, rest);
      RecordStep(t, text, Sep(p), tail, Shown(row[1..], p), rest);
    }
  }

  predicate Printable(rows: seq<Row>) {
    forall i :: 0 <= i < |rows| ==> rows[i] != [] && NoNull(rows[i])
  }

  function ShownTable(rows: seq<Row>, p: Format): (texts: seq<seq<Text>>) {
    seq(|rows|, i requires 0 <= i < |rows| => Shown(rows[i], p))
  }

  /** The lines of any number of rows read back as the texts of the rows. */
  lemma {:induction false} TableReads(rows: seq<Row>, p: Format)
    requires OneByte(p) && Printable(rows) && Sep(p) != DQUOTE && Sep(p) != LF
    ensures ReadTable(Lines(rows, p), Sep(p)) == Some(ShownTable(rows, p))
  {
    hide Line, Shown, ReadRecord;
    if rows == [] {
      assert ShownTable(rows, p) == [];
    } else {
      var rest := Lines(rows[1..], p);
      RowReads(rows[0], p, rest);
      ReadRecordShrinks(Line(rows[0], p) + rest, Sep(p));
      TableReads(rows[1..], p);
      assert ShownTable(rows, p) == [Shown(rows[0], p)] + ShownTable(rows[1..], p);
    }
  }

  // ---- exactly which separators ----

  ghost predicate LinesDetermineRow(p: Format) {
    forall a, b | a != [] && b != [] && NoNull(a) && NoNull(b) && Line(a, p) == Line(b, p) :: a == b
  }

  ghost predicate LinesDetermineTable(p: Format) {
    forall a, b | Printable(a) && Printable(b) && Lines(a, p) == Lines(b, p) :: a == b
  }

  lemma ShownDetermines(a: Row, b: Row, p: Format)
    requires NoNull(a) && NoNull(b) && Shown(a, p) == Shown(b, p)
    ensures a == b
  {
    assert |a| == |b|;
    forall i | 0 <= i < |a|
      ensures a[i] == b[i]
    {
      assert Shown(a, p)[i] == Shown(b, p)[i];
    }
  }

  const EMPTY: Option<Text> := Some([])

  /** Three empty fields, and one field of three double quotes. */
  lemma QuoteSeparatorCollides(p: Format)
    requires OneByte(p) && Sep(p) == DQUOTE
    ensures Line([EMPTY, EMPTY, EMPTY], p) == Line([Some([DQUOTE, DQUOTE, DQUOTE])], p)
  {
    var q, qqq := DQUOTE, [DQUOTE, DQUOTE, DQUOTE];
    assert Doubled(qqq[2..], q) == [q, q];
    assert Doubled(qqq[1..], q) == [q, q, q, q];
    assert Doubled(qqq, q) == [q, q, q, q, q, q];
    assert qqq[0] == q && NeedsQuotes(qqq, p.separator);
    var one: Row := [Some(qqq)];
    assert one[1..] == [] && Terms(one, p) == [q, q, q, q, q, q, q, q];
    var row: Row := [EMPTY, EMPTY, EMPTY];
    assert row[1..] == [EMPTY, EMPTY] && row[1..][1..] == [EMPTY];
    assert Term(EMPTY, p) == [q, q];
    assert row[1..][1..][1..] == [] && Terms(row[1..][1..], p) == [q, q];
    assert Terms(row[1..], p) == [q, q, q, q, q];
  }

  /** One row of two fields, and two rows of one. */
  lemma NewlineSeparatorCollides(p: Format)
    requires OneByte(p) && Sep(p) == LF
    ensures Lines([[EMPTY, EMPTY]], p) == Lines([[EMPTY], [EMPTY]], p)
  {
    var one: seq<Row>, two: seq<Row> := [[EMPTY, EMPTY]], [[EMPTY], [EMPTY]];
    assert Term(EMPTY, p) == [DQUOTE, DQUOTE];
    assert one[0][1..] == [EMPTY] && one[1..] == [] && two[1..] == [[EMPTY]] && two[1..][1..] == [];
    assert one[0][1..][1..] == [] && Terms(one[0][1..], p) == [DQUOTE, DQUOTE];
    assert Line(one[0], p) == [DQUOTE, DQUOTE, LF, DQUOTE, DQUOTE, LF];
    assert Lines(two[1..], p) == [DQUOTE, DQUOTE, LF];
  }

  /** No byte of the separator makes a field be quoted. */
  predicate PlainSeparator(p: Format) {
    forall i :: 0 <= i < |p.separator| ==> !NeedCsvQuote(p.separator[i])
  }

  lemma OneTerm(z: Option<Text>, p: Format)
    ensures Terms([z], p) == Term(z, p)
  {
    var row: Row := [z];
    assert row[1..] == [] && Term(z, p) + [] + [] == Term(z, p);
  }

  /** Two fields, and the one field that looks like them: the test finds no longer separator within it. */
  lemma LongSeparatorCollides(p: Format) returns (z: Text)
    requires !OneByte(p) && PlainSeparator(p)
    ensures Line([Some(z), Some(z)], p) == Line([Some(z + p.separator + z)], p)
  {
    var x: byte := if p.separator != [] && p.separator[0] == UNDERSCORE then LOWER_N else UNDERSCORE;
    z := [x];
    var long := z + p.separator + z;
    forall i | 0 <= i < |long|
      ensures !NeedCsvQuote(long[i]) && !SeparatorSeen(long, p.separator, i)
    {
      if 0 < i < |long| - 1 {
        assert long[i] == p.separator[i - 1];
      }
    }
    assert !NeedsQuotes(z, p.separator) && !NeedsQuotes(long, p.separator);
    var one: Row, two: Row := [Some(long)], [Some(z), Some(z)];
    OneTerm(Some(long), p);
    OneTerm(Some(z), p);
    assert two[1..] == [Some(z)];
    assert Term(two[0], p) == z && Terms(two, p) == z + p.separator + z;
  }

  /**
   A line determines its row, NULLs aside, exactly for the separators of one byte other than the double
   quote; of the longer ones this covers those without a byte that makes a field be quoted.
   */
  lemma RowSeparators(p: Format)
    requires OneByte(p) || PlainSeparator(p)
    ensures LinesDetermineRow(p) <==> OneByte(p) && Sep(p) != DQUOTE
  {
    if !OneByte(p) {
      var z := LongSeparatorCollides(p);
      var a: Row, b: Row := [Some(z), Some(z)], [Some(z + p.separator + z)];
      assert |a| != |b| && NoNull(a) && NoNull(b) && Line(a, p) == Line(b, p);
    } else if Sep(p) == DQUOTE {
      QuoteSeparatorCollides(p);
      var a: Row, b: Row := [EMPTY, EMPTY, EMPTY], [Some([DQUOTE, DQUOTE, DQUOTE])];
      assert |a| != |b| && NoNull(a) && NoNull(b) && Line(a, p) == Line(b, p);
    } else {
      forall a, b | a != [] && b != [] && NoNull(a) && NoNull(b) && Line(a, p) == Line(b, p)
        ensures a == b
      {
        RowReads(a, p, []);
        RowReads(b, p, []);
        ShownDetermines(a, b, p);
      }
    }
  }

  /**
   The lines determine the table, NULLs aside, exactly for the separators of one byte other than the double
   quote and newline, among the same separators.
   */
  lemma TableSeparators(p: Format)
    requires OneByte(p) || PlainSeparator(p)
    ensures LinesDetermineTable(p) <==> OneByte(p) && Sep(p) != DQUOTE && Sep(p) != LF
  {
    if !OneByte(p) {
      var z := LongSeparatorCollides(p);
      RowsCollide([Some(z), Some(z)], [Some(z + p.separator + z)], p);
    } else if Sep(p) == DQUOTE {
      QuoteSeparatorCollides(p);
      RowsCollide([EMPTY, EMPTY, EMPTY], [Some([DQUOTE, DQUOTE, DQUOTE])], p);
    } else if Sep(p) == LF {
      NewlineSeparatorCollides(p);
      var a: seq<Row>, b: seq<Row> := [[EMPTY, EMPTY]], [[EMPTY], [EMPTY]];
      assert |a| != |b| && Printable(a) && Printable(b) && Lines(a, p) == Lines(b, p);
    } else {
      forall a, b | Printable(a) && Printable(b) && Lines(a, p) == Lines(b, p)
        ensures a == b
      {
        TablesDetermined(a, b, p);
      }
    }
  }

  lemma RowsCollide(a: Row, b: Row, p: Format)
    requires |a| != |b| && a != [] && b != [] && NoNull(a) && NoNull(b) && Line(a, p) == Line(b, p)
    ensures !LinesDetermineTable(p)
  {
    hide Line;
    assert [a][0] == a && [b][0] == b && [a][1..] == [] && [b][1..] == [];
    assert Printable([a]) && Printable([b]) && Lines([a], p) == Lines([b], p);
  }

  lemma TablesDetermined(a: seq<Row>, b: seq<Row>, p: Format)
    requires OneByte(p) && Sep(p) != DQUOTE && Sep(p) != LF
    requires Printable(a) && Printable(b) && Lines(a, p) == Lines(b, p)
    ensures a == b
  {
    TableReads(a, p);
    TableReads(b, p);
    assert |a| == |ShownTable(a, p)| == |b|;
    forall i | 0 <= i < |a|
      ensures a[i] == b[i]
    {
      assert ShownTable(a, p)[i] == ShownTable(b, p)[i];
      ShownDetermines(a[i], b[i], p);
    }
  }
}
