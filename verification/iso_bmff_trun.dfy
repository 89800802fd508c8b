/** Sample tables: every `trun`, whatever its version and flags, is what a printer of its rows writes. */
module IsoBmffTrun {
  import opened Bytes
  import opened IsoBmff
  import opened IsoBoxes
  import opened MachineInts
  import opened Wrappers

  /** What stands in a `trun` besides its rows: the skipped data offset, and the flags of the first sample. */
  datatype RunHeader = RunHeader(version: Byte, flags: nat, dataOffset: nat, firstFlags: nat)

  function Field(present: bool, value: nat): (s: seq<Byte>)
    ensures |s| == if present then 4 else 0
  {
    if present then ToBe(value, 4) else []
  }

  /** Composition offsets are signed in version 1 only. */
  function RawOffset(offset: int): (raw: nat)
    requires -U32_LIMIT <= offset
  {
    if offset < 0 then offset + U32_LIMIT else offset
  }

  predicate OffsetFits(version: Byte, offset: int) {
    if version == 1 then -0x8000_0000 <= offset < 0x8000_0000 else 0 <= offset < U32_LIMIT
  }

  function RowBytes(h: RunHeader, row: RunSample): (s: seq<Byte>)
    requires OffsetFits(h.version, row.compositionOffset)
  {
    Field(Has(h.flags, 0x100), row.duration) + Field(Has(h.flags, 0x200), row.size)
    + Field(Has(h.flags, 0x400), row.flags) + Field(Has(h.flags, 0x800), RawOffset(row.compositionOffset))
  }

  /** A 32-bit value, and the inherited one where the column is missing. */
  predicate FieldFits(present: bool, value: nat, inherited: nat) {
    if present then value < U32_LIMIT else value == inherited
  }

  /** The row `index` a table with these flags can hold. */
  predicate RowFits(h: RunHeader, defaults: Defaults, index: nat, row: RunSample) {
    && FieldFits(Has(h.flags, 0x100), row.duration, defaults.duration)
    && FieldFits(Has(h.flags, 0x200), row.size, defaults.size)
    && FieldFits(Has(h.flags, 0x400), row.flags, if index == 0 && Has(h.flags, 0x4) then h.firstFlags else defaults.flags)
    && OffsetFits(h.version, row.compositionOffset) && (Has(h.flags, 0x800) || row.compositionOffset == 0)
  }

  /** Rows `index` and on. */
  predicate RowsFit(h: RunHeader, defaults: Defaults, index: nat, rows: seq<RunSample>)
    decreases |rows|
  {
    rows == [] || (RowFits(h, defaults, index, rows[0]) && RowsFit(h, defaults, index + 1, rows[1..]))
  }

  function RowsBytes(h: RunHeader, defaults: Defaults, index: nat, rows: seq<RunSample>): (s: seq<Byte>)
    requires RowsFit(h, defaults, index, rows)
    decreases |rows|
  {
    if rows == [] then [] else RowBytes(h, rows[0]) + RowsBytes(h, defaults, index + 1, rows[1..])
  }

  function HeaderBytes(h: RunHeader, count: nat): (s: seq<Byte>) {
    FullBox(h.version, h.flags, ToBe(count, 4) + Field(Has(h.flags, 0x1), h.dataOffset) + Field(Has(h.flags, 0x4), h.firstFlags))
  }

  /** 24 bits of flags, known or not, and two optional 32-bit fields. */
  predicate HeaderFits(h: RunHeader) {
    h.flags < 0x100_0000 && h.dataOffset < U32_LIMIT && h.firstFlags < U32_LIMIT
  }

  predicate TableFits(h: RunHeader, defaults: Defaults, rows: seq<RunSample>) {
    HeaderFits(h) && |rows| < U32_LIMIT && RowsFit(h, defaults, 0, rows)
  }

  function PrintTrun(h: RunHeader, defaults: Defaults, rows: seq<RunSample>): (s: seq<Byte>)
    requires RowsFit(h, defaults, 0, rows)
  {
    HeaderBytes(h, |rows|) + RowsBytes(h, defaults, 0, rows)
  }

  // ---- Pieces of a byte string ----------------------------------------------------------------

  /** The string `s` stands in `bytes` at `offset`. */
  predicate At(bytes: seq<Byte>, offset: nat, s: seq<Byte>) {
    offset + |s| <= |bytes| && bytes[offset..offset + |s|] == s
  }

  lemma AtBoth(bytes: seq<Byte>, offset: nat, a: seq<Byte>, b: seq<Byte>)
    ensures At(bytes, offset, a + b) <==> At(bytes, offset, a) && At(bytes, offset + |a|, b)
  {
    if offset + |a| + |b| <= |bytes| {
      var here := bytes[offset..offset + |a| + |b|];
      assert here == bytes[offset..offset + |a|] + bytes[offset + |a|..offset + |a| + |b|];
      assert here[..|a|] == bytes[offset..offset + |a|] && here[|a|..] == bytes[offset + |a|..offset + |a| + |b|];
      assert (a + b)[..|a|] == a && (a + b)[|a|..] == b;
    }
  }

  lemma AllOf(bytes: seq<Byte>, a: seq<Byte>, rest: seq<Byte>)
    requires At(bytes, 0, a) && rest == bytes[|a|..]
    ensures bytes == a + rest
  {
    assert bytes == bytes[0..|a|] + bytes[|a|..];
  }

  lemma AtFour(bytes: seq<Byte>, offset: nat, a: seq<Byte>, b: seq<Byte>, c: seq<Byte>, d: seq<Byte>)
    ensures At(bytes, offset, a + b + c + d)
            <==> && At(bytes, offset, a) && At(bytes, offset + |a|, b)
                 && At(bytes, offset + |a| + |b|, c) && At(bytes, offset + |a| + |b| + |c|, d)
  {
    AtBoth(bytes, offset, a, b);
    AtBoth(bytes, offset, a + b, c);
    AtBoth(bytes, offset, a + b + c, d);
  }

  /** Four bytes are there if and only if they are the big-endian form of what is read. */
  lemma WordAt(bytes: seq<Byte>, offset: nat, v: nat)
    ensures U32At(bytes, offset) == Ok(v) <==> v < U32_LIMIT && At(bytes, offset, ToBe(v, 4))
  {
    Widths();
    if offset + 4 <= |bytes| {
      BeUnique(bytes[offset..offset + 4]);
      if v < U32_LIMIT {
        BeRoundTrip(v, 4);
      }
    }
  }

  // ---- Fields and rows ------------------------------------------------------------------------

  predicate Reads(bytes: seq<Byte>, offset: nat, present: bool, inherited: nat, v: nat, next: nat) {
    Optional(bytes, offset, present, inherited) == Ok((v, next))
  }

  lemma FieldAt(bytes: seq<Byte>, offset: nat, present: bool, inherited: nat, v: nat, next: nat)
    requires offset <= |bytes|
    ensures Reads(bytes, offset, present, inherited, v, next)
            <==> FieldFits(present, v, inherited) && At(bytes, offset, Field(present, v)) && next == offset + |Field(present, v)|
    ensures Reads(bytes, offset, present, inherited, v, next) ==> next <= |bytes|
  {
    WordAt(bytes, offset, v);
  }

  /** The parser's view of the header before `count` rows. */
  function Read(h: RunHeader, count: nat): (t: TrunHeader) {
    TrunHeader(h.version, h.flags, count, if Has(h.flags, 0x4) then Some(h.firstFlags) else None, |HeaderBytes(h, count)|)
  }

  predicate GivesRow(bytes: seq<Byte>, offset: nat, t: TrunHeader, defaults: Defaults, index: nat, row: RunSample, next: nat) {
    EntryAt(bytes, offset, t, defaults, index) == Ok((row, next))
  }

  /** A row is read if and only if it fits the table and its fields stand there one after the other. */
  predicate RowAt(bytes: seq<Byte>, offset: nat, h: RunHeader, defaults: Defaults, index: nat, row: RunSample, next: nat) {
    && RowFits(h, defaults, index, row) && At(bytes, offset, RowBytes(h, row))
    && next == offset + |RowBytes(h, row)|
  }

  lemma OffsetRoundTrip(version: Byte, raw: nat, offset: int)
    requires offset == if version == 1 then AsI32(raw) else raw
    ensures raw < U32_LIMIT ==> OffsetFits(version, offset) && RawOffset(offset) == raw
  {
  }

  lemma OffsetReadsBack(version: Byte, offset: int)
    requires OffsetFits(version, offset)
    ensures RawOffset(offset) < U32_LIMIT
    ensures offset == if version == 1 then AsI32(RawOffset(offset)) else RawOffset(offset)
  {
  }

  /** The four fields of a row, with the offsets between them. */
  predicate FieldsRead(bytes: seq<Byte>, offset: nat, h: RunHeader, t: TrunHeader, defaults: Defaults, index: nat, row: RunSample,
                       raw: nat, o1: nat, o2: nat, o3: nat, next: nat) {
    && Reads(bytes, offset, Has(h.flags, 0x100), defaults.duration, row.duration, o1)
    && Reads(bytes, o1, Has(h.flags, 0x200), defaults.size, row.size, o2)
    && Reads(bytes, o2, Has(h.flags, 0x400), InheritedFlags(t, defaults, index), row.flags, o3)
    && Reads(bytes, o3, Has(h.flags, 0x800), 0, raw, next)
  }

  lemma RowFields(bytes: seq<Byte>, offset: nat, h: RunHeader, count: nat, defaults: Defaults, index: nat, row: RunSample,
                  next: nat) returns (raw: nat, o1: nat, o2: nat, o3: nat)
    requires GivesRow(bytes, offset, Read(h, count), defaults, index, row, next)
    ensures FieldsRead(bytes, offset, h, Read(h, count), defaults, index, row, raw, o1, o2, o3, next)
    ensures row.compositionOffset == if h.version == 1 then AsI32(raw) else raw
  {
    var t := Read(h, count);
    o1 := Optional(bytes, offset, Has(h.flags, 0x100), defaults.duration).value.1;
    o2 := Optional(bytes, o1, Has(h.flags, 0x200), defaults.size).value.1;
    o3 := Optional(bytes, o2, Has(h.flags, 0x400), InheritedFlags(t, defaults, index)).value.1;
    raw := Optional(bytes, o3, Has(h.flags, 0x800), 0).value.0;
  }

  lemma FieldsStand(bytes: seq<Byte>, offset: nat, h: RunHeader, t: TrunHeader, defaults: Defaults, index: nat, row: RunSample,
                    raw: nat, o1: nat, o2: nat, o3: nat, next: nat)
    requires offset <= |bytes| && FieldsRead(bytes, offset, h, t, defaults, index, row, raw, o1, o2, o3, next)
    ensures var duration, size := Field(Has(h.flags, 0x100), row.duration), Field(Has(h.flags, 0x200), row.size);
            var flags, offs := Field(Has(h.flags, 0x400), row.flags), Field(Has(h.flags, 0x800), raw);
            && At(bytes, offset, duration + size + flags + offs) && next == offset + |duration + size + flags + offs|
            && next <= |bytes|
    ensures FieldFits(Has(h.flags, 0x100), row.duration, defaults.duration)
    ensures FieldFits(Has(h.flags, 0x200), row.size, defaults.size)
    ensures FieldFits(Has(h.flags, 0x400), row.flags, InheritedFlags(t, defaults, index))
    ensures FieldFits(Has(h.flags, 0x800), raw, 0)
  {
    FieldAt(bytes, offset, Has(h.flags, 0x100), defaults.duration, row.duration, o1);
    FieldAt(bytes, o1, Has(h.flags, 0x200), defaults.size, row.size, o2);
    FieldAt(bytes, o2, Has(h.flags, 0x400), InheritedFlags(t, defaults, index), row.flags, o3);
    FieldAt(bytes, o3, Has(h.flags, 0x800), 0, raw, next);
    AtFour(bytes, offset, Field(Has(h.flags, 0x100), row.duration), Field(Has(h.flags, 0x200), row.size),
           Field(Has(h.flags, 0x400), row.flags), Field(Has(h.flags, 0x800), raw));
  }

  lemma RowIsPrinted(bytes: seq<Byte>, offset: nat, h: RunHeader, count: nat, defaults: Defaults, index: nat, row: RunSample,
                     next: nat)
    requires offset <= |bytes| && GivesRow(bytes, offset, Read(h, count), defaults, index, row, next)
    ensures RowAt(bytes, offset, h, defaults, index, row, next) && next <= |bytes|
  {
    var raw, o1, o2, o3 := RowFields(bytes, offset, h, count, defaults, index, row, next);
    FieldsStand(bytes, offset, h, Read(h, count), defaults, index, row, raw, o1, o2, o3, next);
    OffsetRoundTrip(h.version, raw, row.compositionOffset);
  }

  lemma RowReadsBack(bytes: seq<Byte>, offset: nat, h: RunHeader, count: nat, defaults: Defaults, index: nat, row: RunSample,
                     next: nat)
    requires offset <= |bytes| && RowAt(bytes, offset, h, defaults, index, row, next)
    ensures GivesRow(bytes, offset, Read(h, count), defaults, index, row, next) && next <= |bytes|
  {
    var t := Read(h, count);
    var duration := Field(Has(h.flags, 0x100), row.duration);
    var size := Field(Has(h.flags, 0x200), row.size);
    var flags := Field(Has(h.flags, 0x400), row.flags);
    var raw := Field(Has(h.flags, 0x800), RawOffset(row.compositionOffset));
    AtFour(bytes, offset, duration, size, flags, raw);
    OffsetReadsBack(h.version, row.compositionOffset);
    var o1 := offset + |duration|;
    var o2 := o1 + |size|;
    var o3 := o2 + |flags|;
    FieldAt(bytes, offset, Has(h.flags, 0x100), defaults.duration, row.duration, o1);
    FieldAt(bytes, o1, Has(h.flags, 0x200), defaults.size, row.size, o2);
    FieldAt(bytes, o2, Has(h.flags, 0x400), InheritedFlags(t, defaults, index), row.flags, o3);
    FieldAt(bytes, o3, Has(h.flags, 0x800), 0, RawOffset(row.compositionOffset), o3 + |raw|);
  }

  predicate GivesRows(bytes: seq<Byte>, offset: nat, t: TrunHeader, defaults: Defaults, index: nat, rows: seq<RunSample>)
    requires index <= t.count
  {
    EntriesFrom(bytes, offset, t, defaults, index) == Ok(rows)
  }

  predicate RowsAt(bytes: seq<Byte>, offset: nat, h: RunHeader, defaults: Defaults, index: nat, rows: seq<RunSample>) {
    RowsFit(h, defaults, index, rows) && At(bytes, offset, RowsBytes(h, defaults, index, rows))
  }

  lemma RowsUnfold(h: RunHeader, defaults: Defaults, index: nat, rows: seq<RunSample>, row: RunSample, rest: seq<RunSample>)
    requires rows != [] && row == rows[0] && rest == rows[1..]
    ensures RowsFit(h, defaults, index, rows) <==> RowFits(h, defaults, index, row) && RowsFit(h, defaults, index + 1, rest)
    ensures RowsFit(h, defaults, index, rows) ==>
              RowsBytes(h, defaults, index, rows) == RowBytes(h, row) + RowsBytes(h, defaults, index + 1, rest)
  {
  }

  lemma MoreRows(bytes: seq<Byte>, offset: nat, h: RunHeader, defaults: Defaults, index: nat, rows: seq<RunSample>,
                 row: RunSample, rest: seq<RunSample>, next: nat)
    requires rows != [] && row == rows[0] && rest == rows[1..]
    requires RowAt(bytes, offset, h, defaults, index, row, next) && RowsAt(bytes, next, h, defaults, index + 1, rest)
    ensures RowsAt(bytes, offset, h, defaults, index, rows)
  {
    RowsUnfold(h, defaults, index, rows, row, rest);
    AtBoth(bytes, offset, RowBytes(h, row), RowsBytes(h, defaults, index + 1, rest));
  }

  lemma FewerRows(bytes: seq<Byte>, offset: nat, h: RunHeader, defaults: Defaults, index: nat, rows: seq<RunSample>,
                  row: RunSample, rest: seq<RunSample>)
    requires rows != [] && row == rows[0] && rest == rows[1..] && RowsAt(bytes, offset, h, defaults, index, rows)
    ensures RowFits(h, defaults, index, row)
    ensures var next := offset + |RowBytes(h, row)|;
            RowAt(bytes, offset, h, defaults, index, row, next) && RowsAt(bytes, next, h, defaults, index + 1, rest)
  {
    RowsUnfold(h, defaults, index, rows, row, rest);
    AtBoth(bytes, offset, RowBytes(h, row), RowsBytes(h, defaults, index + 1, rest));
  }

  lemma EntriesStep(bytes: seq<Byte>, offset: nat, t: TrunHeader, defaults: Defaults, index: nat, row: RunSample, next: nat,
                    rest: seq<RunSample>)
    requires index < t.count && GivesRow(bytes, offset, t, defaults, index, row, next)
    requires GivesRows(bytes, next, t, defaults, index + 1, rest)
    ensures GivesRows(bytes, offset, t, defaults, index, [row] + rest)
  {
  }

  lemma {:induction false} RowsArePrinted(bytes: seq<Byte>, offset: nat, h: RunHeader, count: nat, defaults: Defaults,
                                          index: nat, rows: seq<RunSample>)
    requires offset <= |bytes| && index <= count && GivesRows(bytes, offset, Read(h, count), defaults, index, rows)
    ensures |rows| == count - index && RowsAt(bytes, offset, h, defaults, index, rows)
    decreases count - index
  {
    var t := Read(h, count);
    if index < count {
      var (row, next) := EntryAt(bytes, offset, t, defaults, index).value;
      RowIsPrinted(bytes, offset, h, count, defaults, index, row, next);
      var rest := EntriesFrom(bytes, next, t, defaults, index + 1).value;
      RowsArePrinted(bytes, next, h, count, defaults, index + 1, rest);
      assert rows == [row] + rest && rows[1..] == rest;
      MoreRows(bytes, offset, h, defaults, index, rows, row, rest, next);
    }
  }

  lemma {:induction false} RowsReadBack(bytes: seq<Byte>, offset: nat, h: RunHeader, count: nat, defaults: Defaults,
                                        index: nat, rows: seq<RunSample>)
    requires offset <= |bytes| && index + |rows| == count && RowsAt(bytes, offset, h, defaults, index, rows)
    ensures GivesRows(bytes, offset, Read(h, count), defaults, index, rows)
    decreases |rows|
  {
    if rows != [] {
      FewerRows(bytes, offset, h, defaults, index, rows, rows[0], rows[1..]);
      var next := offset + |RowBytes(h, rows[0])|;
      RowReadsBack(bytes, offset, h, count, defaults, index, rows[0], next);
      RowsReadBack(bytes, next, h, count, defaults, index + 1, rows[1..]);
      EntriesStep(bytes, offset, Read(h, count), defaults, index, rows[0], next, rows[1..]);
      assert [rows[0]] + rows[1..] == rows;
    }
  }

  // ---- The header and the whole table -----------------------------------------------------------

  predicate GivesHeader(bytes: seq<Byte>, t: TrunHeader) {
    TrunHeaderOf(bytes) == Ok(t)
  }

  /** The eight bytes every header starts with. */
  function Fixed(version: Byte, flags: nat, count: nat): (s: seq<Byte>)
    ensures |s| == 8
  {
    [version] + ToBe(flags, 3) + ToBe(count, 4)
  }

  lemma FixedAt(bytes: seq<Byte>, version: Byte, flags: nat, count: nat)
    ensures At(bytes, 0, Fixed(version, flags, count))
            <==> |bytes| >= 8 && bytes[0] == version && bytes[1..4] == ToBe(flags, 3) && bytes[4..8] == ToBe(count, 4)
  {
    AtBoth(bytes, 0, [version] + ToBe(flags, 3), ToBe(count, 4));
    AtBoth(bytes, 0, [version], ToBe(flags, 3));
    assert |bytes| > 0 ==> bytes[0..1] == [bytes[0]];
  }

  lemma HeaderAt(bytes: seq<Byte>, h: RunHeader, count: nat)
    ensures |HeaderBytes(h, count)| == 8 + |Field(Has(h.flags, 0x1), h.dataOffset)| + |Field(Has(h.flags, 0x4), h.firstFlags)|
    ensures var skipped := Field(Has(h.flags, 0x1), h.dataOffset);
            At(bytes, 0, HeaderBytes(h, count))
            <==> && At(bytes, 0, Fixed(h.version, h.flags, count)) && At(bytes, 8, skipped)
                 && At(bytes, 8 + |skipped|, Field(Has(h.flags, 0x4), h.firstFlags))
  {
    var fixed := Fixed(h.version, h.flags, count);
    var skipped, first := Field(Has(h.flags, 0x1), h.dataOffset), Field(Has(h.flags, 0x4), h.firstFlags);
    assert HeaderBytes(h, count) == fixed + skipped + first;
    AtBoth(bytes, 0, fixed + skipped, first);
    AtBoth(bytes, 0, fixed, skipped);
  }

  lemma HeaderReadsBack(bytes: seq<Byte>, h: RunHeader, count: nat)
    requires HeaderFits(h) && count < U32_LIMIT && At(bytes, 0, HeaderBytes(h, count))
    ensures if 1 <= count <= MAX_SAMPLES_PER_SEGMENT then GivesHeader(bytes, Read(h, count))
            else TrunHeaderOf(bytes) == Err(SampleCountBudget)
  {
    Widths();
    BeRoundTrip(h.flags, 3);
    BeRoundTrip(count, 4);
    HeaderAt(bytes, h, count);
    FixedAt(bytes, h.version, h.flags, count);
    if Has(h.flags, 0x4) {
      WordAt(bytes, if Has(h.flags, 0x1) then 12 else 8, h.firstFlags);
    }
  }

  lemma HeaderIsPrinted(bytes: seq<Byte>, t: TrunHeader) returns (h: RunHeader)
    requires GivesHeader(bytes, t)
    ensures HeaderFits(h) && 1 <= t.count <= MAX_SAMPLES_PER_SEGMENT && t == Read(h, t.count)
    ensures At(bytes, 0, HeaderBytes(h, t.count))
  {
    Widths();
    BeUnique(bytes[1..4]);
    BeUnique(bytes[4..8]);
    var behind := if Has(t.flags, 0x1) then 12 else 8;
    h := RunHeader(bytes[0], t.flags, if Has(t.flags, 0x1) then FromBe(bytes[8..12]) else 0,
                if Has(t.flags, 0x4) then t.firstFlags.value else 0);
    if Has(t.flags, 0x1) {
      BeUnique(bytes[8..12]);
    }
    if Has(t.flags, 0x4) {
      WordAt(bytes, behind, h.firstFlags);
    }
    HeaderAt(bytes, h, t.count);
    FixedAt(bytes, h.version, h.flags, t.count);
  }

  /**
   * Parsing undoes printing for every version, every 24 flag bits and every row they can hold: the rows come
   * back exactly, whatever follows them, or their number is over budget.
   */
  lemma TableRoundTrip(h: RunHeader, defaults: Defaults, rows: seq<RunSample>, rest: seq<Byte>)
    requires TableFits(h, defaults, rows)
    ensures TrunOf(PrintTrun(h, defaults, rows) + rest, defaults)
            == if 1 <= |rows| <= MAX_SAMPLES_PER_SEGMENT then Ok(rows) else Err(SampleCountBudget)
  {
    var bytes := PrintTrun(h, defaults, rows) + rest;
    var head, table := HeaderBytes(h, |rows|), RowsBytes(h, defaults, 0, rows);
    assert bytes[..|head| + |table|] == head + table;
    AtBoth(bytes, 0, head, table);
    HeaderReadsBack(bytes, h, |rows|);
    if 1 <= |rows| <= MAX_SAMPLES_PER_SEGMENT {
      RowsReadBack(bytes, |head|, h, |rows|, defaults, 0, rows);
    }
  }

  /** And whatever is accepted was printed: a table, with anything behind it, of the very rows that are read. */
  lemma TableIsPrinted(bytes: seq<Byte>, defaults: Defaults) returns (h: RunHeader, rest: seq<Byte>)
    requires TrunOf(bytes, defaults).Ok?
    ensures var rows := TrunOf(bytes, defaults).value;
            && TableFits(h, defaults, rows) && 1 <= |rows| <= MAX_SAMPLES_PER_SEGMENT
            && bytes == PrintTrun(h, defaults, rows) + rest
  {
    var t := TrunHeaderOf(bytes).value;
    var rows := TrunOf(bytes, defaults).value;
    h := HeaderIsPrinted(bytes, t);
    RowsArePrinted(bytes, t.table, h, t.count, defaults, 0, rows);
    var head, table := HeaderBytes(h, |rows|), RowsBytes(h, defaults, 0, rows);
    AtBoth(bytes, 0, head, table);
    rest := bytes[|head| + |table|..];
    AllOf(bytes, head + table, rest);
  }
}
