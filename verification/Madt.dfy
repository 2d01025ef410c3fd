/**
 The walk over the MADT's variable-length records (section 5.2.12 of the ACPI specification, version
 6): type, length, body.  Types 0, 1 and 2 are collected when long enough; everything else is skipped by length.
 */
module Madt {

  const FIRST_RECORD: nat := 44

  datatype CpuInfo = CpuInfo(processorId: nat, apicId: nat, flags: nat)

  datatype IoapicInfo = IoapicInfo(ioapicId: nat, base: nat, gsiBase: nat)

  datatype IrqOverride = IrqOverride(bus: nat, source: nat, gsi: nat, flags: nat)

  datatype Found = Found(cpus: seq<CpuInfo>, ioapics: seq<IoapicInfo>, overrides: seq<IrqOverride>)

  datatype Walked = Panic | Done(found: Found)

  ghost predicate Bytes(s: seq<nat>) {
    forall i :: 0 <= i < |s| ==> s[i] < 256
  }

  function U16(s: seq<nat>, at: nat): nat
    requires at + 2 <= |s|
  {
    s[at] + 0x100 * s[at + 1]
  }

  function U32(s: seq<nat>, at: nat): nat
    requires at + 4 <= |s|
  {
    s[at] + 0x100 * s[at + 1] + 0x1_0000 * s[at + 2] + 0x100_0000 * s[at + 3]
  }

  // --- records ----------------------------------------------------------------------------

  datatype Record = Record(kind: nat, body: seq<nat>)

  ghost predicate ValidRecord(r: Record) {
    r.kind < 256 && |r.body| <= 253 && Bytes(r.body)
  }

  function EncodeOne(r: Record): seq<nat> {
    [r.kind, |r.body| + 2] + r.body
  }

  function Encode(rs: seq<Record>): seq<nat> {
    if rs == [] then [] else EncodeOne(rs[0]) + Encode(rs[1..])
  }

  // What one record contributes.
  function Collect(f: Found, r: Record): Found {
    if r.kind == 0 && |r.body| >= 6 then
      f.(cpus := f.cpus + [CpuInfo(r.body[0], r.body[1], U32(r.body, 2))])
    else if r.kind == 1 && |r.body| >= 10 then
      f.(ioapics := f.ioapics + [IoapicInfo(r.body[0], U32(r.body, 2), U32(r.body, 6))])
    else if r.kind == 2 && |r.body| >= 8 then
      f.(overrides := f.overrides + [IrqOverride(r.body[0], r.body[1], U32(r.body, 2), U16(r.body, 6))])
    else f
  }

  function CollectAll(f: Found, rs: seq<Record>): Found
    decreases |rs|
  {
    if rs == [] then f else CollectAll(Collect(f, rs[0]), rs[1..])
  }

  // --- the walk ---------------------------------------------------------------------------

  function WalkFrom(table: seq<nat>, cursor: nat, f: Found): Walked
    decreases |table| - cursor
  {
    if cursor + 2 > |table| then Done(f)
    else
      var len := table[cursor + 1];
      if len < 2 || cursor + len > |table| then Panic
      else WalkFrom(table, cursor + len, Collect(f, Record(table[cursor], table[cursor + 2..cursor + len])))
  }

  // One step of the walk.
  lemma WalkStep(table: seq<nat>, cursor: nat, f: Found)
    requires cursor + 2 <= |table|
    ensures var len := table[cursor + 1];
      WalkFrom(table, cursor, f) ==
      if len < 2 || cursor + len > |table| then Panic
      else WalkFrom(table, cursor + len, Collect(f, Record(table[cursor], table[cursor + 2..cursor + len])))
  {
  }

  // Fields are read from the table where the record has them.
  lemma FieldsInPlace(table: seq<nat>, cursor: nat, len: nat, at: nat)
    requires 2 <= at && cursor + len <= |table|
    ensures at + 4 <= len ==> U32(table[cursor + 2..cursor + len], at - 2) == U32(table, cursor + at)
    ensures at + 2 <= len ==> U16(table[cursor + 2..cursor + len], at - 2) == U16(table, cursor + at)
  {
  }

  // What the loop body adds is what the record contributes.
  function CollectAt(f: Found, table: seq<nat>, cursor: nat, len: nat): Found
    requires 2 <= len && cursor + len <= |table|
  {
    var kind := table[cursor];
    if kind == 0 && len >= 8 then
      f.(cpus := f.cpus + [CpuInfo(table[cursor + 2], table[cursor + 3], U32(table, cursor + 4))])
    else if kind == 1 && len >= 12 then
      f.(ioapics := f.ioapics + [IoapicInfo(table[cursor + 2], U32(table, cursor + 4), U32(table, cursor + 8))])
    else if kind == 2 && len >= 10 then
      f.(overrides := f.overrides
      + [IrqOverride(table[cursor + 2], table[cursor + 3], U32(table, cursor + 4), U16(table, cursor + 8))])
    else f
  }

  lemma CollectInPlace(f: Found, table: seq<nat>, cursor: nat, len: nat)
    requires 2 <= len && cursor + len <= |table|
    ensures CollectAt(f, table, cursor, len) == Collect(f, Record(table[cursor], table[cursor + 2..cursor + len]))
  {
    hide U32, U16;
    FieldsInPlace(table, cursor, len, 4);
    FieldsInPlace(table, cursor, len, 8);
  }

  // The loop in `init`.  Every read is inside the table, whatever its bytes are.
  method Walk(table: seq<nat>) returns (r: Walked)
    ensures r == WalkFrom(table, FIRST_RECORD, Found([], [], []))
  {
    hide Collect, U32, U16;
    var cpus: seq<CpuInfo> := [];
    var ioapics: seq<IoapicInfo> := [];
    var overrides: seq<IrqOverride> := [];
    var cursor := FIRST_RECORD;
    ghost var all := WalkFrom(table, FIRST_RECORD, Found([], [], []));
    while cursor + 2 <= |table|
      invariant all == WalkFrom(table, cursor, Found(cpus, ioapics, overrides))
      decreases |table| - cursor
    {
      hide WalkFrom;
      var kind, len := table[cursor], table[cursor + 1];
      WalkStep(table, cursor, Found(cpus, ioapics, overrides));
      if len < 2 || cursor + len > |table| {
        return Panic;
      }
      CollectInPlace(Found(cpus, ioapics, overrides), table, cursor, len);
      if kind == 0 && len >= 8 {
        cpus := cpus + [CpuInfo(table[cursor + 2], table[cursor + 3], U32(table, cursor + 4))];
      } else if kind == 1 && len >= 12 {
        ioapics := ioapics + [IoapicInfo(table[cursor + 2], U32(table, cursor + 4), U32(table, cursor + 8))];
      } else if kind == 2 && len >= 10 {
        overrides := overrides
          + [IrqOverride(table[cursor + 2], table[cursor + 3], U32(table, cursor + 4), U16(table, cursor + 8))];
      }
      cursor := cursor + len;
    }
    return Done(Found(cpus, ioapics, overrides));
  }

  // --- what it computes -------------------------------------------------------------------

  // Walking an encoding collects exactly its records, in order, from wherever they start; a single
  // trailing byte is ignored.
  lemma {:induction false} WalkInvertsEncoding(before: seq<nat>, rs: seq<Record>, tail: seq<nat>, f: Found)
    requires |tail| < 2
    ensures WalkFrom(before + Encode(rs) + tail, |before|, f) == Done(CollectAll(f, rs))
    decreases |rs|
  {
    hide Collect;
    var table := before + Encode(rs) + tail;
    if rs != [] {
      var r, rest, c := rs[0], rs[1..], |before|;
      var len := |r.body| + 2;
      assert table == before + EncodeOne(r) + Encode(rest) + tail;
      assert table[c] == r.kind && table[c + 1] == len;
      assert table[c + 2..c + len] == r.body;
      assert (before + EncodeOne(r)) + Encode(rest) + tail == table;
      WalkInvertsEncoding(before + EncodeOne(r), rest, tail, Collect(f, r));
    }
  }

  lemma OneRecord(table: seq<nat>, cursor: nat)
    requires cursor + 2 <= |table| && 2 <= table[cursor + 1] && cursor + table[cursor + 1] <= |table|
    ensures var len := table[cursor + 1];
      table[cursor..] == EncodeOne(Record(table[cursor], table[cursor + 2..cursor + len])) + table[cursor + len..]
  {
    var len := table[cursor + 1];
    assert EncodeOne(Record(table[cursor], table[cursor + 2..cursor + len])) == table[cursor..cursor + len];
    assert table[cursor..] == table[cursor..cursor + len] + table[cursor + len..];
  }

  // Conversely a walk that does not panic has read an encoding: the table past the cursor is a list
  // of records and at most one stray byte.
  lemma {:induction false} WalkReadsRecords(table: seq<nat>, cursor: nat, f: Found)
    returns (rs: seq<Record>, tail: seq<nat>)
    requires cursor <= |table| && Bytes(table) && WalkFrom(table, cursor, f).Done?
    ensures table[cursor..] == Encode(rs) + tail && |tail| < 2
    ensures forall i :: 0 <= i < |rs| ==> ValidRecord(rs[i])
    ensures WalkFrom(table, cursor, f) == Done(CollectAll(f, rs))
    decreases |table| - cursor
  {
    hide Collect;
    if cursor + 2 > |table| {
      rs, tail := [], table[cursor..];
    } else {
      var len := table[cursor + 1];
      var r := Record(table[cursor], table[cursor + 2..cursor + len]);
      var rest;
      rest, tail := WalkReadsRecords(table, cursor + len, Collect(f, r));
      rs := [r] + rest;
      OneRecord(table, cursor);
      assert Encode(rs) == EncodeOne(r) + Encode(rest);
      assert EncodeOne(r) + (Encode(rest) + tail) == Encode(rs) + tail;
    }
  }

  // The walk succeeds exactly on tables whose records end where the table does, give or take a byte.
  lemma WalkSucceedsIff(table: seq<nat>)
    requires |table| >= FIRST_RECORD && Bytes(table)
    ensures WalkFrom(table, FIRST_RECORD, Found([], [], [])).Done?
       <==> exists rs, tail :: |tail| < 2 && table[FIRST_RECORD..] == Encode(rs) + tail
  {
    hide WalkFrom, Encode;
    var none := Found([], [], []);
    if WalkFrom(table, FIRST_RECORD, none).Done? {
      var rs, tail := WalkReadsRecords(table, FIRST_RECORD, none);
    }
    if exists rs, tail :: |tail| < 2 && table[FIRST_RECORD..] == Encode(rs) + tail {
      var rs, tail :| |tail| < 2 && table[FIRST_RECORD..] == Encode(rs) + tail;
      assert table == table[..FIRST_RECORD] + Encode(rs) + tail;
      WalkInvertsEncoding(table[..FIRST_RECORD], rs, tail, none);
    }
  }

  // --- typed records ----------------------------------------------------------------------

  function Le16(x: nat): seq<nat> {
    [x % 0x100, x / 0x100 % 0x100]
  }

  function Le32(x: nat): seq<nat> {
    [x % 0x100, x / 0x100 % 0x100, x / 0x1_0000 % 0x100, x / 0x100_0000 % 0x100]
  }

  // The records of the three kinds as the specification lays them out, with any bytes after them.
  function CpuRecord(c: CpuInfo, extra: seq<nat>): Record {
    Record(0, [c.processorId, c.apicId] + Le32(c.flags) + extra)
  }

  function IoapicRecord(c: IoapicInfo, reserved: nat, extra: seq<nat>): Record {
    Record(1, [c.ioapicId, reserved] + Le32(c.base) + Le32(c.gsiBase) + extra)
  }

  function OverrideRecord(c: IrqOverride, extra: seq<nat>): Record {
    Record(2, [c.bus, c.source] + Le32(c.gsi) + Le16(c.flags) + extra)
  }

  lemma Le32RoundTrip(x: nat)
    requires x < 0x1_0000_0000
    ensures U32(Le32(x), 0) == x
  {
    assert x / 0x100 / 0x100 == x / 0x1_0000;
    assert x / 0x1_0000 / 0x100 == x / 0x100_0000;
  }

  lemma U32Shift(a: seq<nat>, b: seq<nat>, c: seq<nat>)
    requires |b| == 4
    ensures U32(a + b + c, |a|) == U32(b, 0)
  {
    var s := a + b + c;
    assert s[|a|] == b[0] && s[|a| + 1] == b[1] && s[|a| + 2] == b[2] && s[|a| + 3] == b[3];
  }

  lemma CpuFields(c: CpuInfo, extra: seq<nat>)
    requires c.flags < 0x1_0000_0000
    ensures var b := CpuRecord(c, extra).body; |b| >= 6 && CpuInfo(b[0], b[1], U32(b, 2)) == c
  {
    Le32RoundTrip(c.flags);
    U32Shift([c.processorId, c.apicId], Le32(c.flags), extra);
  }

  lemma IoapicFields(c: IoapicInfo, reserved: nat, extra: seq<nat>)
    requires c.base < 0x1_0000_0000 && c.gsiBase < 0x1_0000_0000
    ensures var b := IoapicRecord(c, reserved, extra).body; |b| >= 10 && IoapicInfo(b[0], U32(b, 2), U32(b, 6)) == c
  {
    Le32RoundTrip(c.base);
    Le32RoundTrip(c.gsiBase);
    var head := [c.ioapicId, reserved];
    assert IoapicRecord(c, reserved, extra).body == head + Le32(c.base) + (Le32(c.gsiBase) + extra);
    U32Shift(head, Le32(c.base), Le32(c.gsiBase) + extra);
    U32Shift(head + Le32(c.base), Le32(c.gsiBase), extra);
  }

  lemma OverrideFields(c: IrqOverride, extra: seq<nat>)
    requires c.gsi < 0x1_0000_0000 && c.flags < 0x1_0000
    ensures var b := OverrideRecord(c, extra).body; |b| >= 8 && IrqOverride(b[0], b[1], U32(b, 2), U16(b, 6)) == c
  {
    Le32RoundTrip(c.gsi);
    var head := [c.bus, c.source];
    assert OverrideRecord(c, extra).body == head + Le32(c.gsi) + (Le16(c.flags) + extra);
    U32Shift(head, Le32(c.gsi), Le16(c.flags) + extra);
    assert OverrideRecord(c, extra).body[6] == c.flags % 0x100;
    assert OverrideRecord(c, extra).body[7] == c.flags / 0x100 % 0x100;
  }

  // --- what a table holds ---------------------------------------------------------------------

  // A record as the specification has it: one of the three kinds with room for its fields, or one the
  // kernel has no use for.
  datatype Typed =
    | Cpu(cpu: CpuInfo, extra: seq<nat>)
    | Ioapic(ioapic: IoapicInfo, reserved: nat, extra: seq<nat>)
    | Override(override: IrqOverride, extra: seq<nat>)
    | Unused(kind: nat, body: seq<nat>)

  function Lay(t: Typed): Record {
    match t
    case Cpu(c, extra) => CpuRecord(c, extra)
    case Ioapic(c, reserved, extra) => IoapicRecord(c, reserved, extra)
    case Override(c, extra) => OverrideRecord(c, extra)
    case Unused(kind, body) => Record(kind, body)
  }

  function LayAll(ts: seq<Typed>): (rs: seq<Record>)
    ensures |rs| == |ts|
  {
    if ts == [] then [] else [Lay(ts[0])] + LayAll(ts[1..])
  }

  // Fields fit their widths; an unused record is of another kind, or too short for its own.
  ghost predicate Fits(t: Typed) {
    match t
    case Cpu(c, _) => c.flags < 0x1_0000_0000
    case Ioapic(c, _, _) => c.base < 0x1_0000_0000 && c.gsiBase < 0x1_0000_0000
    case Override(c, _) => c.gsi < 0x1_0000_0000 && c.flags < 0x1_0000
    case Unused(kind, body) =>
      kind > 2 || |body| < (if kind == 0 then 6 else if kind == 1 then 10 else 8)
  }

  // The processors, I/O APICs and overrides of a table, each in order.
  function Cpus(ts: seq<Typed>): seq<CpuInfo> {
    if ts == [] then [] else (if ts[0].Cpu? then [ts[0].cpu] else []) + Cpus(ts[1..])
  }

  function Ioapics(ts: seq<Typed>): seq<IoapicInfo> {
    if ts == [] then [] else (if ts[0].Ioapic? then [ts[0].ioapic] else []) + Ioapics(ts[1..])
  }

  function Overrides(ts: seq<Typed>): seq<IrqOverride> {
    if ts == [] then [] else (if ts[0].Override? then [ts[0].override] else []) + Overrides(ts[1..])
  }

  // One record adds itself to its own list, or nothing at all.
  lemma CollectTyped(f: Found, t: Typed)
    requires Fits(t)
    ensures Collect(f, Lay(t)) ==
      Found(f.cpus + (if t.Cpu? then [t.cpu] else []), f.ioapics + (if t.Ioapic? then [t.ioapic] else []),
            f.overrides + (if t.Override? then [t.override] else []))
  {
    hide U32, U16, Le32, Le16;
    match t
    case Cpu(c, extra) => CpuFields(c, extra);
    case Ioapic(c, reserved, extra) => IoapicFields(c, reserved, extra);
    case Override(c, extra) => OverrideFields(c, extra);
    case Unused(kind, body) =>
  }

  // The lists of a table, by its first record and the rest.
  lemma ListsOf(ts: seq<Typed>)
    requires ts != []
    ensures Cpus(ts) == (if ts[0].Cpu? then [ts[0].cpu] else []) + Cpus(ts[1..])
    ensures Ioapics(ts) == (if ts[0].Ioapic? then [ts[0].ioapic] else []) + Ioapics(ts[1..])
    ensures Overrides(ts) == (if ts[0].Override? then [ts[0].override] else []) + Overrides(ts[1..])
    ensures LayAll(ts)[0] == Lay(ts[0]) && LayAll(ts)[1..] == LayAll(ts[1..])
  {
  }

  lemma JoinOne<T>(a: seq<T>, b: seq<T>, c: seq<T>)
    ensures a + b + c == a + (b + c)
  {
  }

  lemma {:induction false} CollectLaid(f: Found, ts: seq<Typed>)
    requires forall i :: 0 <= i < |ts| ==> Fits(ts[i])
    ensures CollectAll(f, LayAll(ts)) ==
            Found(f.cpus + Cpus(ts), f.ioapics + Ioapics(ts), f.overrides + Overrides(ts))
    decreases |ts|
  {
    if ts != [] {
      hide Collect, Lay, Fits, Cpus, Ioapics, Overrides, LayAll;
      var t, rest := ts[0], ts[1..];
      ListsOf(ts);
      CollectTyped(f, t);
      CollectLaid(Collect(f, Lay(t)), rest);
      JoinOne(f.cpus, if t.Cpu? then [t.cpu] else [], Cpus(rest));
      JoinOne(f.ioapics, if t.Ioapic? then [t.ioapic] else [], Ioapics(rest));
      JoinOne(f.overrides, if t.Override? then [t.override] else [], Overrides(rest));
    }
  }

  // Walking the encoding of any typed records finds exactly their processors, I/O APICs and overrides, in
  // order; records of other kinds, or too short, change nothing, nor does a stray byte at the end.
  lemma WalkFinds(before: seq<nat>, ts: seq<Typed>, tail: seq<nat>)
    requires |tail| < 2 && forall i :: 0 <= i < |ts| ==> Fits(ts[i])
    ensures WalkFrom(before + Encode(LayAll(ts)) + tail, |before|, Found([], [], [])) ==
            Done(Found(Cpus(ts), Ioapics(ts), Overrides(ts)))
  {
    hide WalkFrom, Fits, Encode;
    var none := Found([], [], []);
    WalkInvertsEncoding(before, LayAll(ts), tail, none);
    CollectLaid(none, ts);
    assert none.cpus + Cpus(ts) == Cpus(ts) && none.ioapics + Ioapics(ts) == Ioapics(ts);
    assert none.overrides + Overrides(ts) == Overrides(ts);
  }

  lemma Le32Inverse(b: seq<nat>, at: nat)
    requires at + 4 <= |b| && Bytes(b)
    ensures U32(b, at) < 0x1_0000_0000 && Le32(U32(b, at)) == b[at..at + 4]
  {
    var b0, b1, b2, b3 := b[at], b[at + 1], b[at + 2], b[at + 3];
    var x := U32(b, at);
    assert x == b0 + 0x100 * (b1 + 0x100 * (b2 + 0x100 * b3));
    assert x / 0x100 == b1 + 0x100 * (b2 + 0x100 * b3) && x % 0x100 == b0;
    assert x / 0x1_0000 == x / 0x100 / 0x100 == b2 + 0x100 * b3;
    assert x / 0x100_0000 == x / 0x1_0000 / 0x100 == b3;
  }

  lemma Le16Inverse(b: seq<nat>, at: nat)
    requires at + 2 <= |b| && Bytes(b)
    ensures U16(b, at) < 0x1_0000 && Le16(U16(b, at)) == b[at..at + 2]
  {
  }

  // Every record is a typed one.
  lemma TypedCovers(r: Record) returns (t: Typed)
    requires ValidRecord(r)
    ensures Fits(t) && Lay(t) == r
  {
    hide U32, U16, Le32, Le16;
    var b := r.body;
    if r.kind == 0 && |b| >= 6 {
      t := Cpu(CpuInfo(b[0], b[1], U32(b, 2)), b[6..]);
      Le32Inverse(b, 2);
      assert b == [b[0], b[1]] + b[2..6] + b[6..];
    } else if r.kind == 1 && |b| >= 10 {
      t := Ioapic(IoapicInfo(b[0], U32(b, 2), U32(b, 6)), b[1], b[10..]);
      Le32Inverse(b, 2);
      Le32Inverse(b, 6);
      assert b == [b[0], b[1]] + b[2..6] + b[6..10] + b[10..];
    } else if r.kind == 2 && |b| >= 8 {
      t := Override(IrqOverride(b[0], b[1], U32(b, 2), U16(b, 6)), b[8..]);
      Le32Inverse(b, 2);
      Le16Inverse(b, 6);
      assert b == [b[0], b[1]] + b[2..6] + b[6..8] + b[8..];
    } else {
      t := Unused(r.kind, b);
    }
  }

  lemma {:induction false} TypedCoversAll(rs: seq<Record>) returns (ts: seq<Typed>)
    requires forall i :: 0 <= i < |rs| ==> ValidRecord(rs[i])
    ensures LayAll(ts) == rs && forall i :: 0 <= i < |ts| ==> Fits(ts[i])
    decreases |rs|
  {
    hide ValidRecord, Fits, Lay;
    ts := [];
    if rs != [] {
      var t := TypedCovers(rs[0]);
      var rest := TypedCoversAll(rs[1..]);
      ts := [t] + rest;
      assert rs == [rs[0]] + rs[1..];
      assert ts[1..] == rest;
    }
  }

  // So whatever the table's bytes are, a walk that does not panic returns exactly the processors, I/O APICs
  // and overrides the table holds.
  lemma WalkDecodes(table: seq<nat>) returns (ts: seq<Typed>, tail: seq<nat>)
    requires |table| >= FIRST_RECORD && Bytes(table)
    requires WalkFrom(table, FIRST_RECORD, Found([], [], [])).Done?
    ensures |tail| < 2 && (forall i :: 0 <= i < |ts| ==> Fits(ts[i]))
    ensures table[FIRST_RECORD..] == Encode(LayAll(ts)) + tail
    ensures WalkFrom(table, FIRST_RECORD, Found([], [], [])) == Done(Found(Cpus(ts), Ioapics(ts), Overrides(ts)))
  {
    hide WalkFrom, Fits, Encode, ValidRecord;
    var rs;
    rs, tail := WalkReadsRecords(table, FIRST_RECORD, Found([], [], []));
    ts := TypedCoversAll(rs);
    WalkFinds(table[..FIRST_RECORD], ts, tail);
    assert table == table[..FIRST_RECORD] + Encode(LayAll(ts)) + tail;
  }
}
