/** The seat file as text. Saving writes one line "<row> <col> <name>\n" per booked
    seat; loading reads it back the way the C++ stream operations do: `>>` into an
    int for the row and for the column (white space skipped, then an optional '+'
    or '-' and a run of decimal digits), `getline` for the rest of the line, and `substr(1)` to drop the one
    character that separated the column from the name. */
module SeatFile {
  import opened SeatGrid

  datatype Option<T> = None | Some(value: T)

  predicate IsDigit(ch: char) { '0' <= ch <= '9' }

  /** The characters `>>` skips: space, tab, newline, vertical tab, form feed, return. */
  predicate IsSpace(ch: char) { ch == ' ' || '\t' <= ch <= '\r' }

  predicate AllDigits(s: string) { forall k :: 0 <= k < |s| ==> IsDigit(s[k]) }

  function DigitChar(d: nat): (ch: char)
    requires d < 10
    ensures IsDigit(ch)
  {
    ('0' as int + d) as char
  }

  function DigitOf(ch: char): nat
    requires IsDigit(ch)
  {
    ch as int - '0' as int
  }

  /** The number a run of decimal digits denotes, most significant first. */
  function DigitsValue(ds: string): nat
    requires AllDigits(ds)
  {
    if ds == [] then 0 else DigitsValue(ds[..|ds| - 1]) * 10 + DigitOf(ds[|ds| - 1])
  }

  /** Decimal text of `n`, as `<<` writes a non-negative int: reading it back gives `n`. */
  function NatToDigits(n: nat): (ds: string)
    ensures ds != [] && AllDigits(ds)
    ensures DigitsValue(ds) == n
  {
    if n < 10 then [DigitChar(n)]
    else
      var front := NatToDigits(n / 10);
      var ds := front + [DigitChar(n % 10)];
      assert ds[..|ds| - 1] == front;
      ds
  }

  /** One saved line: row, a space, column, a space, the buyer name, a newline. */
  function EncodeLine(b: Booking): (r: string)
    ensures r != [] && r[|r| - 1] == '\n'
    ensures '\n' !in b.name ==> forall k :: 0 <= k < |r| - 1 ==> r[k] != '\n'
  {
    NatToDigits(b.row) + " " + NatToDigits(b.col) + " " + b.name + "\n"
  }

  /** The whole seat file for a list of bookings, one line each, in list order. */
  function Encode(bs: seq<Booking>): (r: string)
    ensures r == [] <==> bs == []
    ensures bs != [] ==> r[|r| - 1] == '\n'
  {
    if bs == [] then "" else EncodeLine(bs[0]) + Encode(bs[1..])
  }

  /** The file for two lists one after the other is the two files one after the other. */
  lemma {:induction false} EncodeAppend(a: seq<Booking>, b: seq<Booking>)
    ensures Encode(a + b) == Encode(a) + Encode(b)
  {
    if a == [] {
      assert a + b == b;
    } else {
      assert (a + b)[1..] == a[1..] + b;
      EncodeAppend(a[1..], b);
    }
  }

  lemma EncodeSnoc(bs: seq<Booking>, b: Booking)
    ensures Encode(bs + [b]) == Encode(bs) + EncodeLine(b)
  {
    EncodeAppend(bs, [b]);
    assert [b][1..] == [];
    var line := EncodeLine(b);
    assert Encode([b]) == line + "";
    assert line + "" == line;
  }

  // ---------------------------------------------------------------------------
  // Reading

  /** Drops the leading white space: what is dropped is white space, and what is
      left does not start with any. */
  function SkipSpace(s: string): (t: string)
    ensures |t| <= |s|
    ensures forall k :: 0 <= k < |s| - |t| ==> IsSpace(s[k])
    ensures t == [] || !IsSpace(t[0])
  {
    if s != [] && IsSpace(s[0]) then SkipSpace(s[1..]) else s
  }

  /** Length of the longest run of digits at the front of `s`. */
  function DigitSpan(s: string): (n: nat)
    ensures n <= |s| && AllDigits(s[..n])
    ensures n < |s| ==> !IsDigit(s[n])
  {
    if s != [] && IsDigit(s[0]) then 1 + DigitSpan(s[1..]) else 0
  }

  /** Length of the text before the first newline (all of `s` if there is none). */
  function LineLength(s: string): (n: nat)
    ensures n <= |s| && forall k :: 0 <= k < n ==> s[k] != '\n'
    ensures n < |s| ==> s[n] == '\n'
  {
    if s == [] || s[0] == '\n' then 0 else 1 + LineLength(s[1..])
  }

  predicate IsSign(ch: char) { ch == '+' || ch == '-' }

  /** `>>` into an int: white space skipped, then an optional sign and the digits
      after it; no digits is a failed extraction. */
  function ReadInt(s: string): (r: Option<(int, string)>)
    ensures r.Some? ==> |r.value.1| < |s|
  {
    var t := SkipSpace(s);
    var signed := t != [] && IsSign(t[0]);
    var u := if signed then t[1..] else t;
    var n := DigitSpan(u);
    if n == 0 then None
    else
      var v: int := DigitsValue(u[..n]);
      Some((if signed && t[0] == '-' then -v else v, u[n..]))
  }

  /** `getline`: the text before the next newline, and the text after that newline. */
  function GetLine(s: string): (r: (string, string))
    ensures |r.1| <= |s| - |r.0|
    ensures '\n' !in r.0
  {
    var n := LineLength(s);
    (s[..n], if n < |s| then s[n + 1..] else [])
  }

  /** What one turn of the loader's loop makes of the text still to be read. */
  datatype Step =
    | Stop                               // reading the row or the column failed: the loop ends
    | Broken                             // nothing after the column (substr(1) throws, or at the
                                         // end of the file reuses the previous name), or a
                                         // negative row or column (no such seat)
    | Line(record: Booking, rest: string)

  function ReadRecord(s: string): (r: Step)
    ensures r.Line? ==> |r.rest| < |s| && '\n' !in r.record.name
  {
    var row := ReadInt(s);
    if row.None? then Stop
    else
      var col := ReadInt(row.value.1);
      if col.None? then Stop
      else
        var line := GetLine(col.value.1);
        if line.0 == [] || row.value.0 < 0 || col.value.0 < 0 then Broken
        else Line(Booking(row.value.0, col.value.0, line.0[1..]), line.1)
  }

  /** The bookings the loader reads from a seat file, in file order; None when the
      loader would fail part-way. Text after the first line that does not start
      with two numbers is never read. */
  function Decode(s: string): (r: Option<seq<Booking>>)
    ensures r.Some? ==> NoNewlines(r.value) && |r.value| <= |s|
    decreases |s|
  {
    match ReadRecord(s)
    case Stop => Some([])
    case Broken => None
    case Line(b, rest) =>
      match Decode(rest)
      case None => None
      case Some(bs) => Some([b] + bs)
  }

  /** A line read, then the bookings after it: the bookings of the whole text.
      This and the two lemmas below are proof steps, stated once so that the
      larger proofs stay small; Dafny proves each of them unaided. */
  lemma DecodeLine(s: string, b: Booking, rest: string, bs: seq<Booking>)
    requires ReadRecord(s) == Line(b, rest) && Decode(rest) == Some(bs)
    ensures Decode(s) == Some([b] + bs)
  {
  }

  /** Proof step: a non-empty list is its head followed by its tail. */
  lemma ConsSplit<T>(s: seq<T>)
    requires s != []
    ensures [s[0]] + s[1..] == s
  {
  }

  /** Proof step: concatenation is associative. */
  lemma AppendAssoc<T>(a: seq<T>, b: seq<T>, c: seq<T>)
    ensures a + (b + c) == (a + b) + c
  {
  }

  /** One extraction `file >> row >> col`, then `getline` and `substr(1)`, on a
      decodable file: it yields the first booking still to come and the text
      after its line, or reports that none is left. */
  function ReadNext(s: string): (r: Option<(Booking, string)>)
    requires Decode(s).Some?
    ensures r.Some? <==> Decode(s).value != []
    ensures r.Some? ==> |r.value.1| < |s| && Decode(r.value.1).Some?
    ensures r.Some? ==> Decode(s).value == [r.value.0] + Decode(r.value.1).value
  {
    var step := ReadRecord(s);
    if step.Line? then Some((step.record, step.rest)) else None
  }

  /** What one call of ReadNext on the remaining text `s` tells the loader's loop. */
  predicate NextOf(s: string, next: Option<(Booking, string)>)
  {
    Decode(s).Some? &&
    (next.Some? <==> Decode(s).value != []) &&
    (next.Some? ==> |next.value.1| < |s| && Decode(next.value.1).Some? &&
                    Decode(s).value == [next.value.0] + Decode(next.value.1).value)
  }

  /** Proof step for the loader's loop: after the records `done`, reading one more
      from the remaining text `s` extends `done` by the next record of the file. */
  lemma ReadNextStep(all: seq<Booking>, done: seq<Booking>, s: string, next: Option<(Booking, string)>)
    requires NextOf(s, next) && next.Some? && all == done + Decode(s).value
    ensures |done| < |all| && all[|done|] == next.value.0
    ensures all == done + [next.value.0] + Decode(next.value.1).value
  {
    AppendAssoc(done, [next.value.0], Decode(next.value.1).value);
  }

  /** Proof step for the loader's loop: once no record is left, `done` is the whole file. */
  lemma ReadNextEnd(all: seq<Booking>, done: seq<Booking>, s: string, next: Option<(Booking, string)>)
    requires NextOf(s, next) && next.None? && all == done + Decode(s).value
    ensures all == done
  {
    assert done + [] == done;
  }

  /** A row or column may carry a sign, as `>>` into an int allows: "+3" is 3 and
      "-0" is 0; a negative index names no seat and the load fails; a sign with
      no digit after it ends the file. */
  lemma PlusSignedRow(s: string)
    requires s == "+3 4 Bob\n"
    ensures Decode(s) == Some([Booking(3, 4, "Bob")])
  {
    assert NatToDigits(3) == "3" && NatToDigits(4) == "4";
    assert s == "+" + NatToDigits(3) + (" " + "" + NatToDigits(4) + (" " + "Bob" + "\n" + ""));
    ReadSignedLine("+", 3, "", 4, "Bob", "");
    DecodeSingle(s, Booking(3, 4, "Bob"));
  }

  lemma NegativeZeroRow(s: string)
    requires s == "-0 +1 A\n"
    ensures Decode(s) == Some([Booking(0, 1, "A")])
  {
    assert NatToDigits(0) == "0" && NatToDigits(1) == "1";
    assert s == "-" + NatToDigits(0) + (" " + "+" + NatToDigits(1) + (" " + "A" + "\n" + ""));
    ReadSignedLine("-", 0, "+", 1, "A", "");
    DecodeSingle(s, Booking(0, 1, "A"));
  }

  lemma NegativeRow(s: string)
    requires s == "-1 0 A\n"
    ensures Decode(s) == None
  {
    assert NatToDigits(1) == "1" && NatToDigits(0) == "0";
    assert s == "-" + NatToDigits(1) + (" " + "" + NatToDigits(0) + (" " + "A" + "\n" + ""));
    ReadSignedLine("-", 1, "", 0, "A", "");
  }

  lemma SignWithoutDigits(s: string)
    requires s == "+ 3 4 A\n"
    ensures Decode(s) == Some([])
  {
    assert SkipSpace(s) == s;
    assert DigitSpan(s[1..]) == 0;
    assert ReadRecord(s) == Stop;
  }

  /** A text whose one line is a booking decodes to that booking alone. */
  lemma DecodeSingle(s: string, b: Booking)
    requires ReadRecord(s) == Line(b, "")
    ensures Decode(s) == Some([b])
  {
    DecodeEmpty();
    DecodeLine(s, b, "", []);
    assert [b] + [] == [b];
  }

  // ---------------------------------------------------------------------------
  // Round trip

  predicate NoNewlines(bs: seq<Booking>)
  {
    forall k :: 0 <= k < |bs| ==> '\n' !in bs[k].name
  }

  lemma {:induction false} DigitSpanOf(ds: string, s: string)
    requires AllDigits(ds) && (s == [] || !IsDigit(s[0]))
    ensures DigitSpan(ds + s) == |ds|
  {
    if ds != [] {
      assert (ds + s)[1..] == ds[1..] + s;
      DigitSpanOf(ds[1..], s);
    }
  }

  /** An empty file holds no bookings. */
  lemma DecodeEmpty()
    ensures Decode("") == Some([])
  {
    assert SkipSpace("") == "";
    assert ReadInt("") == None;
  }

  /** `>>` reads a signed number after any white space: a leading '-' negates it. */
  lemma ReadSignedOf(pad: string, sign: char, n: nat, s: string)
    requires forall k :: 0 <= k < |pad| ==> IsSpace(pad[k])
    requires IsSign(sign) && (s == [] || !IsDigit(s[0]))
    ensures ReadInt(pad + [sign] + NatToDigits(n) + s) == Some((if sign == '-' then -(n as int) else n as int, s))
  {
    var ds := NatToDigits(n);
    var t := [sign] + ds + s;
    SkipPad(pad, t);
    assert pad + [sign] + ds + s == pad + t;
    assert t[1..] == ds + s;
    DigitSpanOf(ds, s);
    assert (ds + s)[..|ds|] == ds;
    assert (ds + s)[|ds|..] == s;
  }

  /** No sign, or one '+' or '-'. */
  predicate OptSign(p: string) { p == [] || (|p| == 1 && IsSign(p[0])) }

  /** `>>` reads a number written with or without a sign. */
  lemma ReadOptSigned(pad: string, sign: string, n: nat, s: string)
    requires forall k :: 0 <= k < |pad| ==> IsSpace(pad[k])
    requires OptSign(sign) && (s == [] || !IsDigit(s[0]))
    ensures ReadInt(pad + sign + NatToDigits(n) + s) == Some((if sign == "-" then -(n as int) else n as int, s))
  {
    if sign == [] {
      assert pad + sign == pad;
      ReadIntOf(pad, n, s);
    } else {
      assert sign == [sign[0]];
      ReadSignedOf(pad, sign[0], n, s);
    }
  }

  /** A line whose row and column may carry a sign reads as the unsigned line,
      except that a negative row or column (a '-' before a non-zero number) names
      no seat and the load fails. */
  lemma ReadSignedLine(rowSign: string, row: nat, colSign: string, col: nat, name: string, t: string)
    requires OptSign(rowSign) && OptSign(colSign) && '\n' !in name
    ensures ReadRecord(rowSign + NatToDigits(row) + (" " + colSign + NatToDigits(col) + (" " + name + "\n" + t)))
      == if (rowSign == "-" && row > 0) || (colSign == "-" && col > 0) then Broken
         else Line(Booking(row, col, name), t)
  {
    var line := " " + name;
    var afterCol := line + "\n" + t;
    var afterRow := " " + colSign + NatToDigits(col) + afterCol;
    var s := rowSign + NatToDigits(row) + afterRow;
    assert s == "" + rowSign + NatToDigits(row) + afterRow;
    var rv := if rowSign == "-" then -(row as int) else row as int;
    var cv := if colSign == "-" then -(col as int) else col as int;
    ReadOptSigned("", rowSign, row, afterRow);
    ReadOptSigned(" ", colSign, col, afterCol);
    GetLineOf(line, t);
    assert line[1..] == name && line != [];
    assert ReadInt(s) == Some((rv, afterRow));
    assert ReadInt(afterRow) == Some((cv, afterCol));
    if rv < 0 || cv < 0 {
      assert ReadRecord(s) == Broken;
    } else {
      assert rv == row && cv == col;
      ReadRecordOf(s, row, afterRow, col, afterCol, line, t);
    }
  }

  /** `>>` reads back exactly the number `<<` wrote, after any white space, and
      stops at the first character that is not a digit. */
  lemma ReadIntOf(pad: string, n: nat, s: string)
    requires forall k :: 0 <= k < |pad| ==> IsSpace(pad[k])
    requires s == [] || !IsDigit(s[0])
    ensures ReadInt(pad + NatToDigits(n) + s) == Some((n, s))
  {
    var ds := NatToDigits(n);
    var whole := pad + ds + s;
    SkipPad(pad, ds + s);
    assert whole == pad + (ds + s);
    assert SkipSpace(whole) == ds + s;
    assert !IsSign((ds + s)[0]);
    DigitSpanOf(ds, s);
    assert (ds + s)[..|ds|] == ds;
    assert (ds + s)[|ds|..] == s;
  }

  lemma {:induction false} SkipPad(pad: string, t: string)
    requires forall k :: 0 <= k < |pad| ==> IsSpace(pad[k])
    requires t != [] && !IsSpace(t[0])
    ensures SkipSpace(pad + t) == t
  {
    if pad != [] {
      assert (pad + t)[1..] == pad[1..] + t;
      SkipPad(pad[1..], t);
    }
  }

  lemma {:induction false} LineLengthOf(line: string, t: string)
    requires '\n' !in line
    ensures LineLength(line + "\n" + t) == |line|
  {
    if line != [] {
      assert (line + "\n" + t)[1..] == line[1..] + "\n" + t;
      LineLengthOf(line[1..], t);
    }
  }

  /** `getline` returns the line without its newline and resumes after it. */
  lemma GetLineOf(line: string, t: string)
    requires '\n' !in line
    ensures GetLine(line + "\n" + t) == (line, t)
  {
    var s := line + "\n" + t;
    LineLengthOf(line, t);
    assert s[..|line|] == line;
    assert s[|line| + 1..] == t;
  }

  /** One turn of the loader's loop, given what its three reads return
      (a proof step for ReadEncodedLine and ReadSignedLine; Dafny proves it unaided). */
  lemma ReadRecordOf(s: string, row: nat, afterRow: string, col: nat, afterCol: string,
                     line: string, rest: string)
    requires ReadInt(s) == Some((row, afterRow)) && ReadInt(afterRow) == Some((col, afterCol))
    requires GetLine(afterCol) == (line, rest) && line != []
    ensures ReadRecord(s) == Line(Booking(row, col, line[1..]), rest)
  {
  }

  /** The loader reads a saved line back as the booking it was written from,
      whatever text follows it, provided the name holds no newline. */
  lemma ReadEncodedLine(b: Booking, t: string)
    requires '\n' !in b.name
    ensures ReadRecord(EncodeLine(b) + t) == Line(b, t)
  {
    var s := EncodeLine(b) + t;
    var colText := NatToDigits(b.col);
    var line := " " + b.name;
    var afterCol := line + "\n" + t;
    var afterRow := " " + colText + afterCol;
    assert s == "" + NatToDigits(b.row) + afterRow;
    ReadIntOf("", b.row, afterRow);
    ReadIntOf(" ", b.col, afterCol);
    GetLineOf(line, t);
    assert line[1..] == b.name;
    ReadRecordOf(s, b.row, afterRow, b.col, afterCol, line, t);
  }

  /** Loading what was saved gives back the same bookings in the same order,
      provided no buyer name holds a newline. */
  lemma {:induction false} DecodeEncode(bs: seq<Booking>)
    requires NoNewlines(bs)
    ensures Decode(Encode(bs)) == Some(bs)
  {
    if bs == [] {
      assert ReadRecord("") == Stop;
    } else {
      var rest := Encode(bs[1..]);
      assert Encode(bs) == EncodeLine(bs[0]) + rest;
      ReadEncodedLine(bs[0], rest);
      DecodeEncode(bs[1..]);
      DecodeLine(Encode(bs), bs[0], rest, bs[1..]);
      ConsSplit(bs);
    }
  }

  /** Saving a grid and loading the file into an empty grid of the same size:
      the file reads back as the grid's listing, which fits the grid, names
      distinct free seats, rebuilds the grid exactly and is worth its revenue. */
  lemma SaveLoad(g: Grid, r: nat, c: nat)
    requires IsGrid(g, r, c) && NamesCleared(g)
    requires forall i, j :: InGrid(g, i, j) ==> '\n' !in g[i][j].name
    ensures Decode(Encode(Bookings(g))) == Some(Bookings(g))
    ensures Fits(Bookings(g), r, c) && InBounds(Bookings(g), EmptyGrid(r, c))
    ensures FreshTargets(EmptyGrid(r, c), Bookings(g))
    ensures Apply(EmptyGrid(r, c), Bookings(g)) == g
    ensures Revenue(Apply(EmptyGrid(r, c), Bookings(g))) == PriceSum(Bookings(g)) == Revenue(g)
  {
    var bs := Bookings(g);
    BookingsSound(g);
    assert NoNewlines(bs) by {
      forall k | 0 <= k < |bs|
        ensures '\n' !in bs[k].name
      {
        assert g[bs[k].row][bs[k].col].name == bs[k].name;
      }
    }
    DecodeEncode(bs);
    Restore(g, r, c);
  }
}
