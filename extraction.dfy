/** Step 3 of the robot: the listing page's table is walked row by row and
    every row that looks like a service becomes a service record. The
    browser is not modelled: the table arrives as the `innerText` of every
    `<td>` of every `<tr>`, in document order. */
module Extraction {
  import opened JsString
  import opened JsNumber

  /** The cells of one `<tr>`, each the `innerText` of one `<td>`. */
  type Row = seq<string>

  /** The status every newly extracted service carries. */
  const PendingStart: string := "pendingStart"

  /** The document the robot writes for one service. `createdAt` is the
      ISO-8601 text of the clock reading taken when the row was read. */
  datatype Service = Service(
    serviceNumber: string,
    clientName: string,
    address: string,
    phone: string,
    status: string,
    createdAt: string)

  /** The reference test on the trimmed first cell: non-empty, not NaN
      under `isNaN`, and more than three UTF-16 code units long. */
  predicate IsServiceReference(ref: string) {
    ref != [] && !IsNaN(ref) && Utf16Length(ref) > 3
  }

  /** A row is a service row when it has more than five cells and its
      trimmed first cell is a service reference. */
  predicate RowAccepted(row: Row) {
    |row| > 5 && IsServiceReference(Trim(row[0]))
  }

  /** The record built from an accepted row; cell 1 and cells past 4 are
      not read. */
  function RowService(row: Row, stamp: string): Service
    requires |row| > 5
  {
    Service(Trim(row[0]), Trim(row[2]), Trim(row[3]), Trim(row[4]), PendingStart, stamp)
  }

  /** The body of the `forEach` callback for one row: a record for a
      service row, nothing otherwise. */
  function Emitted(row: Row, stamp: string): (r: seq<Service>)
    ensures |r| <= 1
  {
    if RowAccepted(row) then [RowService(row, stamp)] else []
  }

  /** The records extracted from `rows`, where `stamps[i]` is the clock
      reading at row `i`. */
  function ExtractSpec(rows: seq<Row>, stamps: seq<string>): (r: seq<Service>)
    requires |stamps| == |rows|
    ensures |r| <= |rows|
  {
    if rows == [] then []
    else
      var n := |rows| - 1;
      ExtractSpec(rows[..n], stamps[..n]) + Emitted(rows[n], stamps[n])
  }

  /** One more row extends the extraction by what that row emits. */
  lemma ExtractSnoc(rows: seq<Row>, stamps: seq<string>, row: Row, stamp: string)
    requires |stamps| == |rows|
    ensures ExtractSpec(rows + [row], stamps + [stamp]) == ExtractSpec(rows, stamps) + Emitted(row, stamp)
  {
    assert (rows + [row])[..|rows|] == rows;
    assert (stamps + [stamp])[..|rows|] == stamps;
  }

  /** The indices of the service rows of `rows`, in table order. */
  function Origins(rows: seq<Row>): seq<nat>
  {
    if rows == [] then []
    else
      var n := |rows| - 1;
      Origins(rows[..n]) + (if RowAccepted(rows[n]) then [n] else [])
  }

  /** `Origins(rows)` lists exactly the indices of the service rows, each
      once, in increasing order. */
  lemma {:induction false} OriginsAreServiceRows(rows: seq<Row>)
    ensures forall k :: 0 <= k < |Origins(rows)| ==>
              Origins(rows)[k] < |rows| && RowAccepted(rows[Origins(rows)[k]])
    ensures forall k, l :: 0 <= k < l < |Origins(rows)| ==> Origins(rows)[k] < Origins(rows)[l]
    ensures forall i :: 0 <= i < |rows| && RowAccepted(rows[i]) ==> i in Origins(rows)
  {
    if rows != [] {
      var n := |rows| - 1;
      var done := Origins(rows[..n]);
      OriginsAreServiceRows(rows[..n]);
      var o := Origins(rows);
      assert o == done + (if RowAccepted(rows[n]) then [n] else []);
      forall k | 0 <= k < |o| ensures o[k] < |rows| && RowAccepted(rows[o[k]]) {
        if k < |done| { assert o[k] == done[k] && rows[..n][done[k]] == rows[done[k]]; }
      }
      forall i | 0 <= i < |rows| && RowAccepted(rows[i]) ensures i in o {
        if i < n {
          assert rows[..n][i] == rows[i];
          assert i in done;
        }
      }
    }
  }

  /** Extraction gives exactly one record per service row, in table order:
      record `k` is built from row `Origins(rows)[k]` with that row's clock
      reading. */
  lemma {:induction false} ExtractFromOrigins(rows: seq<Row>, stamps: seq<string>)
    requires |stamps| == |rows|
    ensures |ExtractSpec(rows, stamps)| == |Origins(rows)|
    ensures forall k :: 0 <= k < |Origins(rows)| ==>
              Origins(rows)[k] < |rows| && |rows[Origins(rows)[k]]| > 5 &&
              ExtractSpec(rows, stamps)[k] == RowService(rows[Origins(rows)[k]], stamps[Origins(rows)[k]])
  {
    OriginsAreServiceRows(rows);
    if rows != [] {
      var n := |rows| - 1;
      var rs, ss := rows[..n], stamps[..n];
      ExtractFromOrigins(rs, ss);
      var o, e := Origins(rows), ExtractSpec(rows, stamps);
      var done, edone := Origins(rs), ExtractSpec(rs, ss);
      assert o == done + (if RowAccepted(rows[n]) then [n] else []);
      assert e == edone + Emitted(rows[n], stamps[n]);
      forall k | 0 <= k < |o|
        ensures |rows[o[k]]| > 5 && e[k] == RowService(rows[o[k]], stamps[o[k]])
      {
        if k < |done| {
          assert o[k] == done[k] && e[k] == edone[k];
          assert rs[done[k]] == rows[done[k]] && ss[done[k]] == stamps[done[k]];
        }
      }
    }
  }

  /** Extraction of a table made of two parts is the extraction of the
      first part followed by that of the second: rows are handled one at a
      time and independently, so nothing is reordered and no record is
      dropped for repeating an earlier one. */
  lemma {:induction false} ExtractAppend(a: seq<Row>, sa: seq<string>, b: seq<Row>, sb: seq<string>)
    requires |sa| == |a| && |sb| == |b|
    ensures ExtractSpec(a + b, sa + sb) == ExtractSpec(a, sa) + ExtractSpec(b, sb)
  {
    if b == [] {
      assert a + b == a && sa + sb == sa;
    } else {
      var n := |b| - 1;
      var b', sb' := b[..n], sb[..n];
      assert b == b' + [b[n]] && sb == sb' + [sb[n]];
      assert a + b == (a + b') + [b[n]] && sa + sb == (sa + sb') + [sb[n]];
      ExtractAppend(a, sa, b', sb');
      ExtractAppendStep(a, sa, b', sb', b[n], sb[n]);
    }
  }

  /** The inductive step of `ExtractAppend`: one more row at the end of the
      second part. */
  lemma ExtractAppendStep(a: seq<Row>, sa: seq<string>, b: seq<Row>, sb: seq<string>, r: Row, st: string)
    requires |sa| == |a| && |sb| == |b|
    requires ExtractSpec(a + b, sa + sb) == ExtractSpec(a, sa) + ExtractSpec(b, sb)
    ensures ExtractSpec((a + b) + [r], (sa + sb) + [st]) == ExtractSpec(a, sa) + ExtractSpec(b + [r], sb + [st])
  {
    ExtractSnoc(a + b, sa + sb, r, st);
    ExtractSnoc(b, sb, r, st);
  }

  /** The clock readings reach the records only through `createdAt`: two
      extractions of the same table with different readings give the same
      number of records, equal field by field except `createdAt`. */
  lemma ExtractStampsOnlyCreatedAt(rows: seq<Row>, s1: seq<string>, s2: seq<string>)
    requires |s1| == |rows| && |s2| == |rows|
    ensures |ExtractSpec(rows, s1)| == |ExtractSpec(rows, s2)|
    ensures forall k :: 0 <= k < |ExtractSpec(rows, s1)| ==>
              ExtractSpec(rows, s1)[k] == ExtractSpec(rows, s2)[k].(createdAt := ExtractSpec(rows, s1)[k].createdAt)
  {
    ExtractFromOrigins(rows, s1);
    ExtractFromOrigins(rows, s2);
  }

  /** Two service rows with the same reference both give a record: the
      extraction does not remove duplicates. */
  lemma DuplicatesKept(rows: seq<Row>, stamps: seq<string>, i: nat, j: nat)
    requires |stamps| == |rows|
    requires i < j < |rows| && RowAccepted(rows[i]) && RowAccepted(rows[j])
    requires Trim(rows[i][0]) == Trim(rows[j][0])
    ensures exists k, l :: 0 <= k < l < |ExtractSpec(rows, stamps)|
              && ExtractSpec(rows, stamps)[k].serviceNumber == Trim(rows[i][0])
              && ExtractSpec(rows, stamps)[l].serviceNumber == Trim(rows[i][0])
  {
    ExtractFromOrigins(rows, stamps);
    OriginsAreServiceRows(rows);
    var o := Origins(rows);
    var k :| 0 <= k < |o| && o[k] == i;
    var l :| 0 <= l < |o| && o[l] == j;
    assert k < l;
  }

  /** What every extracted record holds: status `pendingStart`; a service
      number that is trimmed, is not NaN and has more than three characters,
      all of them ASCII literal characters (so no `/` and UTF-16 length equal
      to its length); trimmed client name, address and phone. */
  lemma ExtractedRecords(rows: seq<Row>, stamps: seq<string>)
    requires |stamps| == |rows|
    ensures forall s :: s in ExtractSpec(rows, stamps) ==>
              && s.status == PendingStart
              && IsServiceReference(s.serviceNumber) && IsTrimmed(s.serviceNumber)
              && |s.serviceNumber| > 3
              && (forall c :: c in s.serviceNumber ==> IsLiteralChar(c))
              && IsTrimmed(s.clientName) && IsTrimmed(s.address) && IsTrimmed(s.phone)
  {
    ExtractFromOrigins(rows, stamps);
    OriginsAreServiceRows(rows);
    var e, o := ExtractSpec(rows, stamps), Origins(rows);
    forall s | s in e
      ensures s.status == PendingStart
      ensures IsServiceReference(s.serviceNumber) && IsTrimmed(s.serviceNumber)
      ensures |s.serviceNumber| > 3
      ensures forall c :: c in s.serviceNumber ==> IsLiteralChar(c)
      ensures IsTrimmed(s.clientName) && IsTrimmed(s.address) && IsTrimmed(s.phone)
    {
      var k :| 0 <= k < |e| && e[k] == s;
      var row := rows[o[k]];
      assert s == RowService(row, stamps[o[k]]);
      ReferenceShape(row);
      TrimCuts(row[2]);
      TrimCuts(row[3]);
      TrimCuts(row[4]);
    }
  }

  /** The reference of a service row is a trimmed numeric literal: ASCII
      only, so its JavaScript length is its number of characters. */
  lemma ReferenceShape(row: Row)
    requires RowAccepted(row)
    ensures IsTrimmed(Trim(row[0])) && |Trim(row[0])| > 3
    ensures forall c :: c in Trim(row[0]) ==> IsLiteralChar(c)
    ensures Utf16Length(Trim(row[0])) == |Trim(row[0])|
  {
    var ref := Trim(row[0]);
    TrimCuts(row[0]);
    TrimOfTrimmed(ref);
    NumericLiteralChars(ref);
    assert forall i :: 0 <= i < |ref| ==> ref[i] as int <= 0xFFFF;
    Utf16LengthBounds(ref);
  }

  /** A row of more than five cells whose first cell, trimmed, is four or
      more decimal digits is a service row. */
  lemma DigitRowAccepted(row: Row)
    requires |row| > 5 && DecimalDigits(Trim(row[0])) && |Trim(row[0])| > 3
    ensures RowAccepted(row)
  {
    var ref := Trim(row[0]);
    DigitsAreNotNaN(ref);
    assert forall i :: 0 <= i < |ref| ==> ref[i] as int <= 0xFFFF;
    Utf16LengthBounds(ref);
  }

  /** The `forEach` over the rows that pushes one record per service row
      onto `datos`. */
  method Extract(rows: seq<Row>, stamps: seq<string>) returns (datos: seq<Service>)
    requires |stamps| == |rows|
    ensures datos == ExtractSpec(rows, stamps)
  {
    datos := [];
    for i := 0 to |rows|
      invariant datos == ExtractSpec(rows[..i], stamps[..i])
    {
      assert rows[..i + 1][..i] == rows[..i] && stamps[..i + 1][..i] == stamps[..i];
      var tds := rows[i];
      if |tds| > 5 {
        var ref := Trim(tds[0]);
        if ref != [] && !IsNaN(ref) && Utf16Length(ref) > 3 {
          datos := datos + [Service(ref, Trim(tds[2]), Trim(tds[3]), Trim(tds[4]), PendingStart, stamps[i])];
        }
      }
    }
    assert rows[..|rows|] == rows && stamps[..|rows|] == stamps;
  }
}
