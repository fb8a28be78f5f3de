/** The bytes a read session's source identity is the digest of: every part is preceded by its
  * length in eight big-endian bytes, the number of selected fields is written nowhere.
  */
module SourceIdentity {

  import opened Percent
  import opened Text
  import opened Wrappers

  /** The text `silk-bqs-source-v1`. */
  const TAG: seq<Byte> :=
    [0x73, 0x69, 0x6C, 0x6B, 0x2D, 0x62, 0x71, 0x73, 0x2D, 0x73, 0x6F, 0x75, 0x72, 0x63, 0x65, 0x2D, 0x76, 0x31]

  const LENGTH_LIMIT: nat := 0x1_0000_0000_0000_0000

  type Seconds = n: int | -0x8000_0000_0000_0000 <= n < 0x8000_0000_0000_0000

  type Nanos = n: int | -0x8000_0000 <= n < 0x8000_0000

  /** A source as a read session names it. */
  datatype Source = Source(
    table: string, seconds: Seconds, nanos: Nanos, selectedFields: seq<string>, rowRestriction: Option<string>)

  /** The length of every part fits in 64 bits. */
  predicate Representable(source: Source) {
    forall i :: 0 <= i < |Parts(source)| ==> |Parts(source)[i]| < LENGTH_LIMIT
  }

  // ---------- integers as big-endian bytes ----------

  function TwoBytes(n: nat): (bytes: seq<Byte>)
    ensures |bytes| == 2
  {
    [n / 0x100 % 0x100, n % 0x100]
  }

  function FourBytes(n: nat): (bytes: seq<Byte>)
    ensures |bytes| == 4
  {
    TwoBytes(n / 0x1_0000) + TwoBytes(n % 0x1_0000)
  }

  function EightBytes(n: nat): (bytes: seq<Byte>)
    ensures |bytes| == 8
  {
    FourBytes(n / 0x1_0000_0000) + FourBytes(n % 0x1_0000_0000)
  }

  /** The number that bytes write, the most significant first. */
  function Number(bytes: seq<Byte>): nat {
    if bytes == [] then 0 else Number(bytes[..|bytes| - 1]) * 0x100 + bytes[|bytes| - 1]
  }

  lemma OneMoreByte(bytes: seq<Byte>, a: Byte)
    ensures Number(bytes + [a]) == Number(bytes) * 0x100 + a
  {
    assert (bytes + [a])[..|bytes|] == bytes;
  }

  lemma TwoMoreBytes(bytes: seq<Byte>, n: nat)
    requires n < 0x1_0000
    ensures Number(bytes + TwoBytes(n)) == Number(bytes) * 0x1_0000 + n
  {
    assert bytes + TwoBytes(n) == bytes + [n / 0x100 % 0x100] + [n % 0x100];
    OneMoreByte(bytes, n / 0x100 % 0x100);
    OneMoreByte(bytes + [n / 0x100 % 0x100], n % 0x100);
  }

  lemma FourMoreBytes(bytes: seq<Byte>, n: nat)
    requires n < 0x1_0000_0000
    ensures Number(bytes + FourBytes(n)) == Number(bytes) * 0x1_0000_0000 + n
  {
    ConcatAssociates(bytes, TwoBytes(n / 0x1_0000), TwoBytes(n % 0x1_0000));
    TwoMoreBytes(bytes, n / 0x1_0000);
    TwoMoreBytes(bytes + TwoBytes(n / 0x1_0000), n % 0x1_0000);
  }

  lemma FourBytesRead(n: nat)
    requires n < 0x1_0000_0000
    ensures Number(FourBytes(n)) == n
  {
    FourMoreBytes([], n);
    assert [] + FourBytes(n) == FourBytes(n);
  }

  /** Eight bytes write any number below 2^64 with its most significant byte first. */
  lemma EightBytesRead(n: nat)
    requires n < LENGTH_LIMIT
    ensures Number(EightBytes(n)) == n
  {
    FourBytesRead(n / 0x1_0000_0000);
    FourMoreBytes(FourBytes(n / 0x1_0000_0000), n % 0x1_0000_0000);
  }

  /** Negative integers are written in two's complement. */
  function SecondsBytes(seconds: Seconds): seq<Byte> {
    EightBytes(if seconds < 0 then seconds + LENGTH_LIMIT else seconds)
  }

  function NanosBytes(nanos: Nanos): seq<Byte> {
    FourBytes(if nanos < 0 then nanos + 0x1_0000_0000 else nanos)
  }

  // ---------- the preimage ----------

  /** One part: its length, then itself. */
  function Part(value: seq<Byte>): seq<Byte> {
    EightBytes(|value|) + value
  }

  function Concat(values: seq<seq<Byte>>): seq<Byte> {
    if values == [] then [] else Part(values[0]) + Concat(values[1..])
  }

  function FieldBytes(fields: seq<string>): (parts: seq<seq<Byte>>)
    ensures |parts| == |fields|
  {
    seq(|fields|, i requires 0 <= i < |fields| => EncodeUtf8(fields[i]))
  }

  function RestrictionBytes(restriction: Option<string>): seq<Byte> {
    if restriction.Some? then EncodeUtf8(restriction.value) else []
  }

  function Header(source: Source): seq<seq<Byte>> {
    [TAG, EncodeUtf8(source.table), SecondsBytes(source.seconds), NanosBytes(source.nanos)]
  }

  function Parts(source: Source): seq<seq<Byte>> {
    Header(source) + FieldBytes(source.selectedFields) + [RestrictionBytes(source.rowRestriction)]
  }

  /** Feeds the parts to the digest one after another. */
  method Preimage(source: Source) returns (bytes: seq<Byte>)
    ensures bytes == Concat(Parts(source))
  {
    bytes := HeaderPreimage(source);
    ghost var header, fields := Header(source), FieldBytes(source.selectedFields);
    assert header + fields[..0] == header;
    for i := 0 to |source.selectedFields|
      invariant bytes == Concat(header + fields[..i])
    {
      ConcatOneMore(header + fields[..i], fields[i]);
      assert header + fields[..i] + [fields[i]] == header + fields[..i + 1];
      bytes := bytes + Part(EncodeUtf8(source.selectedFields[i]));
    }
    assert fields[..|fields|] == fields;
    ConcatOneMore(header + fields, RestrictionBytes(source.rowRestriction));
    bytes := bytes + Part(RestrictionBytes(source.rowRestriction));
  }

  method HeaderPreimage(source: Source) returns (bytes: seq<Byte>)
    ensures bytes == Concat(Header(source))
  {
    bytes := Part(TAG);
    bytes := bytes + Part(EncodeUtf8(source.table));
    bytes := bytes + Part(SecondsBytes(source.seconds));
    bytes := bytes + Part(NanosBytes(source.nanos));
    FourParts(TAG, EncodeUtf8(source.table), SecondsBytes(source.seconds), NanosBytes(source.nanos));
  }

  lemma FourParts(a: seq<Byte>, b: seq<Byte>, c: seq<Byte>, d: seq<Byte>)
    ensures Concat([a, b, c, d]) == Part(a) + Part(b) + Part(c) + Part(d)
  {
    ConcatFirst(a);
    ConcatOneMore([a], b);
    ConcatOneMore([a, b], c);
    ConcatOneMore([a, b, c], d);
    assert [a] + [b] == [a, b];
    assert [a, b] + [c] == [a, b, c];
    assert [a, b, c] + [d] == [a, b, c, d];
  }

  lemma ConcatFirst(value: seq<Byte>)
    ensures Concat([value]) == Part(value)
  {
    assert [value][1..] == [];
    ConcatEmpty(Part(value));
  }

  lemma {:induction false} ConcatOneMore(values: seq<seq<Byte>>, value: seq<Byte>)
    ensures Concat(values + [value]) == Concat(values) + Part(value)
  {
    if values == [] {
      assert [] + [value] == [value] && [value][1..] == [];
      ConcatEmpty(Part(value));
    } else {
      assert (values + [value])[1..] == values[1..] + [value];
      ConcatOneMore(values[1..], value);
      ConcatAssociates(Part(values[0]), Concat(values[1..]), Part(value));
    }
  }

  // ---------- the preimage determines the source ----------

  /** The parts that bytes hold: a length in eight bytes, as many bytes as it says, and so on to the end. */
  function ReadParts(bytes: seq<Byte>): Option<seq<seq<Byte>>>
    decreases |bytes|
  {
    if bytes == [] then Some([])
    else if |bytes| < 8 || |bytes| - 8 < Number(bytes[..8]) then None
    else
      var length := Number(bytes[..8]);
      match ReadParts(bytes[8 + length..])
      case None => None
      case Some(rest) => Some([bytes[8..8 + length]] + rest)
  }

  lemma PartReads(value: seq<Byte>, rest: seq<Byte>)
    requires |value| < LENGTH_LIMIT
    ensures var bytes := Part(value) + rest;
      && |bytes| == 8 + |value| + |rest|
      && Number(bytes[..8]) == |value| && bytes[8..8 + |value|] == value && bytes[8 + |value|..] == rest
  {
    EightBytesRead(|value|);
    assert (Part(value) + rest)[..8] == EightBytes(|value|);
  }

  /** The parts can be read back, however many there are. */
  lemma {:induction false} PartsReadBack(parts: seq<seq<Byte>>)
    requires forall i :: 0 <= i < |parts| ==> |parts[i]| < LENGTH_LIMIT
    ensures ReadParts(Concat(parts)) == Some(parts)
  {
    if parts != [] {
      PartReads(parts[0], Concat(parts[1..]));
      PartsReadBack(parts[1..]);
      HeadAndTail(parts);
    }
  }

  /** Length prefixes make the concatenation of any number of parts unambiguous. */
  lemma ConcatIsInjective(a: seq<seq<Byte>>, b: seq<seq<Byte>>)
    requires forall i :: 0 <= i < |a| ==> |a[i]| < LENGTH_LIMIT
    requires forall i :: 0 <= i < |b| ==> |b[i]| < LENGTH_LIMIT
    ensures Concat(a) == Concat(b) <==> a == b
  {
    PartsReadBack(a);
    PartsReadBack(b);
  }

  lemma EncodingIsInjective(a: string, b: string)
    requires EncodeUtf8(a) == EncodeUtf8(b)
    ensures a == b
  {
    DecodeUndoesEncode(a);
    DecodeUndoesEncode(b);
  }

  function Restricting(restriction: Option<string>): string {
    if restriction.Some? then restriction.value else ""
  }

  /** Two sources have the same preimage exactly when they agree on table, snapshot, the whole
    * list of selected fields and the restriction, an absent one counting as empty. */
  lemma PreimageIsInjective(a: Source, b: Source)
    requires Representable(a) && Representable(b)
    ensures Concat(Parts(a)) == Concat(Parts(b)) <==>
      && a.table == b.table && a.seconds == b.seconds && a.nanos == b.nanos
      && a.selectedFields == b.selectedFields
      && Restricting(a.rowRestriction) == Restricting(b.rowRestriction)
  {
    if Concat(Parts(a)) == Concat(Parts(b)) {
      ConcatIsInjective(Parts(a), Parts(b));
      SamePartsSameSource(a, b);
    }
  }

  /** The number a byte string writes in two's complement. */
  function Signed(bytes: seq<Byte>, limit: nat): int {
    if Number(bytes) < limit / 2 then Number(bytes) else Number(bytes) - limit
  }

  /** The parts of a source, in this order and nothing else: the tag, the table, the snapshot's seconds and
    * nanoseconds, each selected field, and the restriction. */
  predicate PartsOf(source: Source, parts: seq<seq<Byte>>) {
    var n := |source.selectedFields|;
    && |parts| == n + 5
    && parts[0] == TAG
    && DecodeUtf8(parts[1]) == Some(source.table)
    && |parts[2]| == 8 && Signed(parts[2], LENGTH_LIMIT) == source.seconds
    && |parts[3]| == 4 && Signed(parts[3], 0x1_0000_0000) == source.nanos
    && (forall i :: 0 <= i < n ==> DecodeUtf8(parts[i + 4]) == Some(source.selectedFields[i]))
    && DecodeUtf8(parts[n + 4]) == Some(Restricting(source.rowRestriction))
  }

  /** The preimage reads back to the parts, and they are the source's. */
  lemma PreimageReads(source: Source)
    requires Representable(source)
    ensures ReadParts(Concat(Parts(source))) == Some(Parts(source)) && PartsOf(source, Parts(source))
  {
    PartsReadBack(Parts(source));
    PartsAreThose(source);
  }

  lemma PartsAreThose(source: Source)
    ensures PartsOf(source, Parts(source))
  {
    PartsAre(source);
    SecondsRead(source.seconds);
    NanosRead(source.nanos);
    DecodeUndoesEncode(source.table);
    DecodeUndoesEncode(Restricting(source.rowRestriction));
    forall i | 0 <= i < |source.selectedFields|
      ensures DecodeUtf8(Parts(source)[i + 4]) == Some(source.selectedFields[i])
    {
      FieldPart(source, i);
      DecodeUndoesEncode(source.selectedFields[i]);
    }
  }

  lemma PartsAre(source: Source)
    ensures var parts, n := Parts(source), |source.selectedFields|;
      && |parts| == n + 5
      && parts[1] == EncodeUtf8(source.table)
      && parts[2] == SecondsBytes(source.seconds)
      && parts[3] == NanosBytes(source.nanos)
      && parts[n + 4] == EncodeUtf8(Restricting(source.rowRestriction))
  {
  }

  lemma FieldPart(source: Source, i: nat)
    requires i < |source.selectedFields|
    ensures i + 4 < |Parts(source)| && Parts(source)[i + 4] == EncodeUtf8(source.selectedFields[i])
  {
  }

  lemma SamePartsSameSource(a: Source, b: Source)
    requires Parts(a) == Parts(b)
    ensures a.table == b.table && a.seconds == b.seconds && a.nanos == b.nanos
    ensures a.selectedFields == b.selectedFields
    ensures Restricting(a.rowRestriction) == Restricting(b.rowRestriction)
  {
    PartsAre(a);
    PartsAre(b);
    EncodingIsInjective(a.table, b.table);
    EncodingIsInjective(Restricting(a.rowRestriction), Restricting(b.rowRestriction));
    SecondsRead(a.seconds);
    SecondsRead(b.seconds);
    NanosRead(a.nanos);
    NanosRead(b.nanos);
    forall i | 0 <= i < |a.selectedFields| ensures a.selectedFields[i] == b.selectedFields[i] {
      FieldPart(a, i);
      FieldPart(b, i);
      EncodingIsInjective(a.selectedFields[i], b.selectedFields[i]);
    }
  }

  lemma SecondsRead(seconds: Seconds)
    ensures Signed(SecondsBytes(seconds), LENGTH_LIMIT) == seconds
  {
    EightBytesRead(if seconds < 0 then seconds + LENGTH_LIMIT else seconds);
  }

  lemma NanosRead(nanos: Nanos)
    ensures Signed(NanosBytes(nanos), 0x1_0000_0000) == nanos
  {
    FourBytesRead(if nanos < 0 then nanos + 0x1_0000_0000 else nanos);
  }
}
