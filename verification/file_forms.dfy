// The two files as text: the columns of each line, and the lines older versions wrote.
module FileForms {
  import opened Net
  import opened Seqs
  import opened Text
  import opened LeaseTables
  import opened Facade
  import opened Persist
  import opened RespawnIndex

  function ProtoText(p: Proto): string { if p.Tcp? then "6" else "17" }

  lemma ProtoIsSpelled(p: Proto)
    ensures Dec(p.Code()) == ProtoText(p)
  {
    assert Dec(1) == "1";
  }

  lemma AddressIsSpelled(ip: Ipv4)
    ensures Split(ShowIpv4(ip), '.') == [Dec(ip.a), Dec(ip.b), Dec(ip.c), Dec(ip.d)]
  {
    var parts := [Dec(ip.a), Dec(ip.b), Dec(ip.c), Dec(ip.d)];
    forall c | c in parts ensures '.' !in c {
      assert forall x :: x in c ==> IsDigit(x);
    }
    SplitJoin(parts, '.');
  }

  // ---- the lease file ----

  // The columns of a slot's line: port, kind, client, internal port, an external port that is never known here,
  // lifetime, expiry, time of writing, protocol. A static map is kind 0 and has no client and no lease.
  lemma LeaseLineSpelled(s: Slot, now: u64)
    ensures Split(RowLine(ProjectSlot(s, now)), '\t') ==
            if s.lease.Static?
            then [Dec(s.bindPort), "0", "0.0.0.0", "0", "0", "0", "0", Dec(now), ProtoText(s.proto)]
            else [Dec(s.bindPort), "1", ShowIpv4(s.lease.client), Dec(s.lease.intPort), "0",
                  Dec(s.lease.lifetime), Dec(s.lease.expires), Dec(now), ProtoText(s.proto)]
  {
    LineIsClean(ProjectSlot(s, now));
    ProtoIsSpelled(s.proto);
    NoAddress();
    assert Dec(0) == "0" && Dec(1) == "1";
    hide RowLine, ShowIpv4, Split, Dec;
  }

  lemma NoAddress()
    ensures ShowIpv4(UNSPECIFIED) == "0.0.0.0"
  {
    assert Dec(0) == "0";
    assert Join(["0"], '.') == "0" && Join(["0", "0"], '.') == "0.0";
    assert ["0", "0", "0", "0"][1..] == ["0", "0", "0"] && ["0", "0", "0"][1..] == ["0", "0"];
    assert Join(["0", "0", "0"], '.') == "0.0.0";
  }

  // A line of eight columns, from before the protocol was written, is a UDP slot.
  lemma OlderLeaseLineReads(p: PersistedSlot)
    ensures ParseRow(Join(Columns(p)[..8], '\t')) == Some(p.(proto := 17))
  {
    hide ParseUint, ParseIpv4, Dec, ShowIpv4, Join, Split;
    var parts := Columns(p)[..8];
    forall c | c in parts ensures '\t' !in c {
      ColumnsAreClean(p, c);
    }
    SplitJoin(parts, '\t');
    DecRoundTrip(p.bindPort, U16_MAX);
    DecRoundTrip(p.kind, 255);
    Ipv4RoundTrip(p.client);
    DecRoundTrip(p.intPort, U16_MAX);
    DecRoundTrip(p.extPort, U16_MAX);
    DecRoundTrip(p.lifetime, U32_MAX);
    DecRoundTrip(p.expires, U64_MAX);
    DecRoundTrip(p.createdAt, U64_MAX);
  }

  function Unread(): string -> bool { (line: string) => ParseRow(line).None? }

  // Every line is a row or is counted as skipped.
  lemma {:induction false} SkippedExactly(lines: seq<string>)
    ensures ReadRows(lines).1 == Count(lines, Unread()) && |ReadRows(lines).0| + ReadRows(lines).1 == |lines|
  {
    if lines != [] {
      hide ParseRow;
      var front, line := lines[..|lines| - 1], lines[|lines| - 1];
      SkippedExactly(front);
      assert lines == front + [line];
      FilterAppend(front, line, Unread());
    }
  }

  // ---- the index file ----

  // The columns of an entry's line: label, protocol, port, client, internal port, lifetime, expiry, description, owner.
  lemma EntryLineSpelled(e: Entry)
    requires CleanDesc(e)
    ensures Split(EntryLine(e), '\t') ==
            [Dec(e.reqExt), ProtoText(e.proto), Dec(e.bindPort), ShowIpv4(e.client), Dec(e.intPort), Dec(e.lifetime),
             Dec(e.expires), e.desc, ShowIpv4(e.owner)]
  {
    EntryLineSplits(e);
    ProtoIsSpelled(e.proto);
    hide EntryLine, ShowIpv4, Split, Dec;
  }

  // Older lines have no owner, and the oldest no description either: the owner is then the client.
  lemma OlderEntryLineReads(e: Entry, n: nat)
    requires CleanDesc(e) && (n == 7 || n == 8)
    ensures EntryFromLine(Join(EntryColumns(e)[..n], '\t')) ==
            Some(e.(owner := e.client, desc := if n == 8 then e.desc else ""))
  {
    hide ParseUint, ParseIpv4, Dec, ShowIpv4, TrimSpace, Join, Split;
    var parts := EntryColumns(e)[..n];
    forall c | c in parts ensures '\t' !in c {
      EntryColumnsAreClean(e, c);
    }
    SplitJoin(parts, '\t');
    DecRoundTrip(e.reqExt, U16_MAX);
    ProtoRoundTrip(e.proto);
    DecRoundTrip(e.bindPort, U16_MAX);
    Ipv4RoundTrip(e.client);
    DecRoundTrip(e.intPort, U16_MAX);
    DecRoundTrip(e.lifetime, U32_MAX);
    DecRoundTrip(e.expires, U64_MAX);
  }

  // An owner that is not an address is the client too.
  lemma StrangeOwnerReads(e: Entry, owner: string)
    requires CleanDesc(e) && '\t' !in owner && ParseIpv4(owner).None?
    ensures EntryFromLine(Join(EntryColumns(e)[..8] + [owner], '\t')) == Some(e.(owner := e.client))
  {
    hide ParseUint, ParseIpv4, Dec, ShowIpv4, TrimSpace, Join, Split;
    var parts := EntryColumns(e)[..8] + [owner];
    forall c | c in parts ensures '\t' !in c {
      if c != owner {
        EntryColumnsAreClean(e, c);
      }
    }
    SplitJoin(parts, '\t');
    DecRoundTrip(e.reqExt, U16_MAX);
    ProtoRoundTrip(e.proto);
    DecRoundTrip(e.bindPort, U16_MAX);
    Ipv4RoundTrip(e.client);
    DecRoundTrip(e.intPort, U16_MAX);
    DecRoundTrip(e.lifetime, U32_MAX);
    DecRoundTrip(e.expires, U64_MAX);
  }
}
