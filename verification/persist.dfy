// The lease file: the table projected to rows, printed sorted by bind port, and read back.
module Persist {
  import opened Net
  import opened Seqs
  import opened Text
  import opened LeaseTables

  // One row. Kind is 0 for a static and 1 for a grant.
  datatype PersistedSlot = PersistedSlot(
    bindPort: u16, proto: u8, kind: u8, client: Ipv4, intPort: u16,
    extPort: u16, lifetime: u32, expires: u64, createdAt: u64)

  function ProjectSlot(s: Slot, now: u64): PersistedSlot {
    match s.lease
    case Static => PersistedSlot(s.bindPort, s.proto.Code(), 0, UNSPECIFIED, 0, 0, 0, 0, now)
    case Granted(client, intPort, lifetime, expires) =>
      PersistedSlot(s.bindPort, s.proto.Code(), 1, client, intPort, 0, lifetime, expires, now)
  }

  function Snapshot(slots: seq<Slot>, now: u64): (r: seq<PersistedSlot>)
    ensures |r| == |slots| && forall i :: 0 <= i < |r| ==> r[i] == ProjectSlot(slots[i], now)
  {
    seq(|slots|, i requires 0 <= i < |slots| => ProjectSlot(slots[i], now))
  }

  // ---- printing ----

  // A stable sort by bind port.
  function InsertByPort(rows: seq<PersistedSlot>, p: PersistedSlot): seq<PersistedSlot> {
    InsertAt(rows, FirstIndex(rows, (x: PersistedSlot) => p.bindPort < x.bindPort), p)
  }

  function SortByPort(rows: seq<PersistedSlot>): seq<PersistedSlot> {
    if rows == [] then [] else InsertByPort(SortByPort(rows[..|rows| - 1]), rows[|rows| - 1])
  }

  ghost predicate SortedRows(rows: seq<PersistedSlot>) {
    forall i, j :: 0 <= i < j < |rows| ==> rows[i].bindPort <= rows[j].bindPort
  }

  lemma InsertByPortSorts(rows: seq<PersistedSlot>, p: PersistedSlot)
    requires SortedRows(rows)
    ensures SortedRows(InsertByPort(rows, p))
    ensures multiset(InsertByPort(rows, p)) == multiset(rows) + multiset{p}
  {
    var above := (x: PersistedSlot) => p.bindPort < x.bindPort;
    var at := FirstIndex(rows, above);
    assert forall k :: 0 <= k < at ==> !above(rows[k]);
    assert at < |rows| ==> above(rows[at]);
    InsertAtAdds(rows, at, p);
  }

  lemma {:induction false} SortSorts(rows: seq<PersistedSlot>)
    ensures SortedRows(SortByPort(rows)) && multiset(SortByPort(rows)) == multiset(rows)
  {
    if rows != [] {
      hide InsertByPort, SortedRows;
      var front, p := rows[..|rows| - 1], rows[|rows| - 1];
      SortSorts(front);
      InsertByPortSorts(SortByPort(front), p);
      assert rows == front + [p];
    }
  }

  function Columns(p: PersistedSlot): seq<string> {
    [Dec(p.bindPort), Dec(p.kind), ShowIpv4(p.client), Dec(p.intPort), Dec(p.extPort),
     Dec(p.lifetime), Dec(p.expires), Dec(p.createdAt), Dec(p.proto)]
  }

  function RowLine(p: PersistedSlot): string { Join(Columns(p), '\t') }

  function Concat(rows: seq<PersistedSlot>): string {
    if rows == [] then "" else RowLine(rows[0]) + "\n" + Concat(rows[1..])
  }

  function Tsv(rows: seq<PersistedSlot>): string { Concat(SortByPort(rows)) }

  method WriteTsv(rows: seq<PersistedSlot>) returns (out: string)
    ensures out == Tsv(rows)
  {
    hide SortByPort, RowLine;
    var sorted := SortByPort(rows);
    out := "";
    var i := 0;
    while i < |sorted|
      invariant i <= |sorted|
      invariant out + Concat(sorted[i..]) == Concat(sorted)
    {
      assert sorted[i..][1..] == sorted[i + 1..];
      out := out + (RowLine(sorted[i]) + "\n");
      i := i + 1;
    }
    assert out + "" == out;
  }

  // ---- reading ----

  // A row has eight columns, or nine with the protocol code; a row without it is UDP.
  function ParseRow(line: string): Option<PersistedSlot> {
    var parts := Split(line, '\t');
    if |parts| != 8 && |parts| != 9 then None
    else
      var proto := if |parts| == 9 then ParseUint(parts[8], 255) else Some(17);
      if proto.None? || (proto.value != 17 && proto.value != 6) then None
      else ParseFields(parts, proto.value)
  }

  function ParseFields(parts: seq<string>, proto: u8): Option<PersistedSlot>
    requires |parts| >= 8
  {
    var bindPort, kind, client := ParseUint(parts[0], U16_MAX), ParseUint(parts[1], 255), ParseIpv4(parts[2]);
    var intPort, extPort := ParseUint(parts[3], U16_MAX), ParseUint(parts[4], U16_MAX);
    var lifetime, expires := ParseUint(parts[5], U32_MAX), ParseUint(parts[6], U64_MAX);
    var createdAt := ParseUint(parts[7], U64_MAX);
    if bindPort.Some? && kind.Some? && client.Some? && intPort.Some? && extPort.Some?
       && lifetime.Some? && expires.Some? && createdAt.Some?
    then Some(PersistedSlot(bindPort.value, proto, kind.value, client.value, intPort.value, extPort.value,
                            lifetime.value, expires.value, createdAt.value))
    else None
  }

  // The rows that parse, in order, and how many do not.
  function ReadRows(lines: seq<string>): (seq<PersistedSlot>, nat) {
    if lines == [] then ([], 0)
    else
      var (rows, skipped) := ReadRows(lines[..|lines| - 1]);
      match ParseRow(lines[|lines| - 1])
      case Some(p) => (rows + [p], skipped)
      case None => (rows, skipped + 1)
  }

  method ReadLeases(text: string) returns (rows: seq<PersistedSlot>, skipped: nat)
    ensures (rows, skipped) == ReadRows(Lines(text))
  {
    var lines := Lines(text);
    rows, skipped := [], 0;
    var i := 0;
    while i < |lines|
      invariant i <= |lines|
      invariant (rows, skipped) == ReadRows(lines[..i])
    {
      assert lines[..i + 1][..i] == lines[..i];
      match ParseRow(lines[i]) {
        case Some(p) => rows := rows + [p];
        case None => skipped := skipped + 1;
      }
      i := i + 1;
    }
    assert lines[..i] == lines;
  }

  // ---- the round trip ----

  predicate RealProto(p: PersistedSlot) { p.proto == 6 || p.proto == 17 }

  lemma ColumnsAreClean(p: PersistedSlot, c: string)
    requires c in Columns(p)
    ensures '\t' !in c && '\n' !in c && '\r' !in c
  {
    Ipv4Avoids(p.client, '\t');
    Ipv4Avoids(p.client, '\n');
    Ipv4Avoids(p.client, '\r');
    if c != ShowIpv4(p.client) {
      assert forall x :: x in c ==> IsDigit(x);
    }
  }

  lemma LineIsClean(p: PersistedSlot)
    ensures '\n' !in RowLine(p) && '\r' !in RowLine(p)
    ensures Split(RowLine(p), '\t') == Columns(p)
  {
    forall c | c in Columns(p) ensures '\t' !in c && '\n' !in c && '\r' !in c {
      ColumnsAreClean(p, c);
    }
    JoinAvoids(Columns(p), '\t', '\n');
    JoinAvoids(Columns(p), '\t', '\r');
    SplitJoin(Columns(p), '\t');
  }

  lemma RowRoundTrip(p: PersistedSlot)
    requires RealProto(p)
    ensures ParseRow(RowLine(p)) == Some(p)
  {
    hide ParseUint, ParseIpv4, Dec, ShowIpv4;
    LineIsClean(p);
    DecRoundTrip(p.bindPort, U16_MAX);
    DecRoundTrip(p.kind, 255);
    Ipv4RoundTrip(p.client);
    DecRoundTrip(p.intPort, U16_MAX);
    DecRoundTrip(p.extPort, U16_MAX);
    DecRoundTrip(p.lifetime, U32_MAX);
    DecRoundTrip(p.expires, U64_MAX);
    DecRoundTrip(p.createdAt, U64_MAX);
    DecRoundTrip(p.proto, 255);
  }

  lemma {:induction false} ReadConcat(rows: seq<PersistedSlot>)
    requires forall p :: p in rows ==> RealProto(p)
    ensures ReadRows(Lines(Concat(rows))) == (rows, 0)
    ensures |Lines(Concat(rows))| == |rows|
  {
    hide ParseRow, RowLine, Lines, Concat;
    if rows == [] {
      assert Lines(Concat(rows)) == [] by { NothingToRead(rows); }
    } else {
      var n := |rows| - 1;
      ReadConcat(rows[..n]);
      LinesOfMore(rows[..n], rows[n]);
      assert rows == rows[..n] + [rows[n]];
      RowRoundTrip(rows[n]);
      var lines := Lines(Concat(rows));
      assert lines[..n] == Lines(Concat(rows[..n]));
    }
  }

  lemma NothingToRead(rows: seq<PersistedSlot>)
    requires rows == []
    ensures Lines(Concat(rows)) == []
  {}

  // One more row is one more line.
  lemma {:induction false} LinesOfMore(rows: seq<PersistedSlot>, p: PersistedSlot)
    ensures Lines(Concat(rows + [p])) == Lines(Concat(rows)) + [RowLine(p)]
  {
    hide RowLine, Lines;
    if rows == [] {
      LineIsClean(p);
      NothingToRead(rows);
      assert Concat([p]) == RowLine(p) + "\n" + Concat([p][1..]);
      LinesHead(RowLine(p), Concat([p][1..]));
      NothingToRead([p][1..]);
      assert rows + [p] == [p];
    } else {
      LineIsClean(rows[0]);
      assert (rows + [p])[1..] == rows[1..] + [p];
      LinesHead(RowLine(rows[0]), Concat(rows[1..]));
      LinesHead(RowLine(rows[0]), Concat(rows[1..] + [p]));
      LinesOfMore(rows[1..], p);
    }
  }

  // Printing and reading back gives the rows sorted by bind port, none skipped.
  lemma TsvRoundTrip(rows: seq<PersistedSlot>)
    requires forall p :: p in rows ==> RealProto(p)
    ensures ReadRows(Lines(Tsv(rows))) == (SortByPort(rows), 0)
  {
    hide SortByPort;
    SortSorts(rows);
    var sorted := SortByPort(rows);
    forall p | p in sorted ensures RealProto(p) {
      assert p in multiset(sorted) && p in multiset(rows);
    }
    ReadConcat(sorted);
  }

  ghost predicate DistinctRowPorts(rows: seq<PersistedSlot>) {
    forall i, j :: 0 <= i < j < |rows| ==> rows[i].bindPort != rows[j].bindPort
  }

  lemma {:induction false} DistinctOccursOnce(rows: seq<PersistedSlot>, p: PersistedSlot)
    requires DistinctRowPorts(rows)
    ensures multiset(rows)[p] <= 1
  {
    if rows != [] {
      var front, q := rows[..|rows| - 1], rows[|rows| - 1];
      assert rows == front + [q];
      DistinctOccursOnce(front, p);
    }
  }

  lemma TwoPlacesCountTwice(rows: seq<PersistedSlot>, i: nat, j: nat)
    requires i < j < |rows| && rows[i] == rows[j]
    ensures multiset(rows)[rows[i]] >= 2
  {
    assert rows == rows[..j] + rows[j..];
    assert rows[..j][i] == rows[i] && rows[j..][0] == rows[i];
    assert multiset(rows[..j])[rows[i]] >= 1 && multiset(rows[j..])[rows[i]] >= 1;
  }

  // A permutation of rows on distinct ports is on distinct ports.
  lemma PermutationStaysDistinct(rows: seq<PersistedSlot>, r: seq<PersistedSlot>)
    requires DistinctRowPorts(rows) && multiset(r) == multiset(rows)
    ensures DistinctRowPorts(r)
  {
    forall i, j | 0 <= i < j < |r| ensures r[i].bindPort != r[j].bindPort {
      DistinctOccursOnce(rows, r[i]);
      if r[i] == r[j] {
        TwoPlacesCountTwice(r, i, j);
      }
      assert r[i] in multiset(rows) && r[j] in multiset(rows);
      var a :| 0 <= a < |rows| && rows[a] == r[i];
      var b :| 0 <= b < |rows| && rows[b] == r[j];
    }
  }

  // Sorted rows on distinct ports are determined by their contents.
  lemma {:induction false} SortedIsUnique(a: seq<PersistedSlot>, b: seq<PersistedSlot>)
    requires multiset(a) == multiset(b)
    requires SortedRows(a) && DistinctRowPorts(a) && SortedRows(b) && DistinctRowPorts(b)
    ensures a == b
  {
    assert |a| == |multiset(a)| == |multiset(b)| == |b|;
    if a != [] {
      LeastIsFirst(a, b);
      LeastIsFirst(b, a);
      TailOf(a);
      TailOf(b);
      hide SortedRows, DistinctRowPorts;
      SortedIsUnique(a[1..], b[1..]);
    }
  }

  lemma TailOf(a: seq<PersistedSlot>)
    requires a != []
    ensures a == [a[0]] + a[1..] && multiset(a[1..]) == multiset(a) - multiset{a[0]}
    ensures SortedRows(a) ==> SortedRows(a[1..])
    ensures DistinctRowPorts(a) ==> DistinctRowPorts(a[1..])
  {
    assert a == [a[0]] + a[1..];
  }

  lemma LeastIsFirst(a: seq<PersistedSlot>, b: seq<PersistedSlot>)
    requires multiset(a) == multiset(b) && a != [] && b != []
    requires SortedRows(a) && DistinctRowPorts(a)
    ensures a[0].bindPort < b[0].bindPort || a[0] == b[0]
  {
    assert b[0] in multiset(a);
    var i :| 0 <= i < |a| && a[i] == b[0];
  }

  // For rows on distinct ports the bytes do not depend on the order of the table.
  lemma TsvIgnoresOrder(a: seq<PersistedSlot>, b: seq<PersistedSlot>)
    requires multiset(a) == multiset(b) && DistinctRowPorts(a)
    ensures Tsv(a) == Tsv(b)
  {
    hide SortByPort, SortedRows, DistinctRowPorts;
    SortSorts(a);
    SortSorts(b);
    PermutationStaysDistinct(a, SortByPort(a));
    PermutationStaysDistinct(a, SortByPort(b));
    SortedIsUnique(SortByPort(a), SortByPort(b));
  }
}
