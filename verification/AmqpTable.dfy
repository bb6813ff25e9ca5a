/** AMQP field tables (section 4.2.5.5): the recursive decoder, and the encoder it undoes. */
module AmqpTable {
  import opened Wrappers
  import opened Bytes
  import opened Streams
  import opened AmqpWire

  const MAX_DEPTH: nat := 16
  const MAX_ENTRIES: nat := 1000

  /** What a field decodes to. Binary strings keep their length only; floating-point numbers are their bits. */
  datatype Decoded =
    | Flag(on: bool)
    | Number(kind: char, value: int)
    | Float(kind: char, bits: nat)
    | Fixed(scale: byte, unscaled: int)
    | Text(bytes: seq<byte>)
    | Binary(length: nat)
    | Time(seconds: int)
    | Nothing
    | Table(entries: map<seq<byte>, Decoded>)
    | List(items: seq<Decoded>)

  // ----- decoding ------------------------------------------------------------------------------

  /** Signedness and width of the integer kinds. */
  function Integer(kind: char): Option<(bool, nat)> {
    match kind
    case 'b' => Some((true, 1))
    case 'B' => Some((false, 1))
    case 'U' => Some((true, 2))
    case 'u' => Some((false, 2))
    case 'I' => Some((true, 4))
    case 'i' => Some((false, 4))
    case 'L' => Some((true, 8))
    case 'l' => Some((false, 8))
    case _ => None
  }

  /** Two's complement. */
  function Signed(value: nat, width: nat): int {
    if value >= Pow256(width) / 2 then value - Pow256(width) else value
  }

  function IntegerAt(data: seq<byte>, pos: nat, signed: bool, width: nat): (r: Option<(int, nat)>)
    requires pos <= |data|
    ensures r.Some? ==> pos <= r.value.1 <= |data|
  {
    match Unsigned(data, pos, width)
    case None => None
    case Some((value, next)) => Some((if signed then Signed(value, width) else value, next))
  }

  /** The kinds that hold no other field. */
  function ScalarAt(data: seq<byte>, pos: nat, kind: char): (r: Option<(Decoded, nat)>)
    requires pos <= |data|
    ensures r.Some? ==> pos <= r.value.1 <= |data|
  {
    if Integer(kind).Some? then
      match IntegerAt(data, pos, Integer(kind).value.0, Integer(kind).value.1)
      case None => None
      case Some((value, next)) => Some((Number(kind, value), next))
    else
      match kind
      case 't' => (match Unsigned(data, pos, 1) case None => None case Some((v, next)) => Some((Flag(v != 0), next)))
      case 'f' => (match Unsigned(data, pos, 4) case None => None case Some((v, next)) => Some((Float('f', v), next)))
      case 'd' => (match Unsigned(data, pos, 8) case None => None case Some((v, next)) => Some((Float('d', v), next)))
      case 'D' => (
        if |data| - pos < 1 then None
        else match IntegerAt(data, pos + 1, true, 4) case None => None case Some((v, next)) => Some((Fixed(data[pos], v), next)))
      case 's' => (match ShortStr(data, pos) case None => None case Some((v, next)) => Some((Text(v), next)))
      case 'S' => (match LongStr(data, pos) case None => None case Some((v, next)) => Some((Text(v), next)))
      case 'x' => (match LongStr(data, pos) case None => None case Some((v, next)) => Some((Binary(|v|), next)))
      case 'T' => (match IntegerAt(data, pos, true, 8) case None => None case Some((v, next)) => Some((Time(v), next)))
      case 'V' => Some((Nothing, pos))
      case _ => None
  }

  /** A length that is still within the data, and the position it reaches. */
  function Span(data: seq<byte>, pos: nat): (r: Option<(nat, nat)>)
    requires pos <= |data|
    ensures r.Some? ==> pos + 4 == r.value.0 <= r.value.1 <= |data|
  {
    match Unsigned(data, pos, 4)
    case None => None
    case Some((length, next)) => if length > |data| - next then None else Some((next, next + length))
  }

  function FieldValue(data: seq<byte>, pos: nat, kind: char, depth: nat): (r: Option<(Decoded, nat)>)
    requires pos <= |data| && depth <= MAX_DEPTH + 1
    ensures r.Some? ==> pos <= r.value.1 <= |data|
    decreases MAX_DEPTH + 1 - depth, |data| - pos, 0
  {
    if depth > MAX_DEPTH then None
    else if kind == 'F' then
      match Span(data, pos)
      case None => None
      case Some((next, end)) =>
        match Entries(data, next, end, depth + 1, map[])
        case None => None
        case Some((entries, after)) => Some((Table(entries), after))
    else if kind == 'A' then
      match Span(data, pos)
      case None => None
      case Some((next, end)) =>
        match Items(data, next, end, depth, [])
        case None => None
        case Some((items, after)) => Some((List(items), after))
    else ScalarAt(data, pos, kind)
  }

  /** Entries up to `end`; the last one may not reach past it. */
  function Entries(data: seq<byte>, pos: nat, end: nat, depth: nat, known: map<seq<byte>, Decoded>):
    (r: Option<(map<seq<byte>, Decoded>, nat)>)
    requires pos <= |data| && depth <= MAX_DEPTH + 1
    ensures r.Some? ==> pos <= r.value.1 == end
    decreases MAX_DEPTH + 1 - depth, |data| - pos, 1
  {
    if depth > MAX_DEPTH then None
    else if pos >= end then (if pos == end then Some((known, pos)) else None)
    else if |known| >= MAX_ENTRIES then None
    else
      match ShortStr(data, pos)
      case None => None
      case Some((name, afterName)) =>
        if afterName == |data| then None
        else
          match FieldValue(data, afterName + 1, data[afterName] as char, depth)
          case None => None
          case Some((value, next)) => Entries(data, next, end, depth, known[name := value])
  }

  /** Items up to `end`; the last one may reach past it. */
  function Items(data: seq<byte>, pos: nat, end: nat, depth: nat, known: seq<Decoded>): (r: Option<(seq<Decoded>, nat)>)
    requires pos <= |data| && depth <= MAX_DEPTH && end <= |data|
    ensures r.Some? ==> pos <= r.value.1 <= |data|
    decreases MAX_DEPTH + 1 - depth, |data| - pos, 1
  {
    if pos >= end then Some((known, pos))
    else
      match FieldValue(data, pos + 1, data[pos] as char, depth + 1)
      case None => None
      case Some((value, next)) => Items(data, next, end, depth, known + [value])
  }

  /** A whole table: its length must be what is left. */
  function DecodeTable(raw: seq<byte>): Option<map<seq<byte>, Decoded>> {
    match Unsigned(raw, 0, 4)
    case None => None
    case Some((length, next)) =>
      if length != |raw| - next then None
      else
        match Entries(raw, next, next + length, 0, map[])
        case None => None
        case Some((entries, _)) => Some(entries)
  }

  // ----- encoding ------------------------------------------------------------------------------

  /** A field as the standard writes it. */
  datatype Field =
    | FlagField(on: bool)
    | NumberField(kind: char, value: int)
    | FloatField(kind: char, bits: nat)
    | FixedField(scale: byte, unscaled: int)
    | ShortField(bytes: seq<byte>)
    | LongField(bytes: seq<byte>)
    | BinaryField(bytes: seq<byte>)
    | TimeField(seconds: int)
    | NothingField
    | TableField(entries: seq<Entry>)
    | ListField(items: seq<Field>)

  datatype Entry = Entry(name: seq<byte>, value: Field)

  function Kind(f: Field): char {
    match f
    case FlagField(_) => 't'
    case NumberField(kind, _) => kind
    case FloatField(kind, _) => kind
    case FixedField(_, _) => 'D'
    case ShortField(_) => 's'
    case LongField(_) => 'S'
    case BinaryField(_) => 'x'
    case TimeField(_) => 'T'
    case NothingField => 'V'
    case TableField(_) => 'F'
    case ListField(_) => 'A'
  }

  /** The letters of the numbers, and for each whether it is signed and how many bytes it has. */
  const NUMBERS: string := "bBUuIiLl"

  function Width(kind: char): (r: (bool, nat))
    ensures r.1 > 0
  {
    (kind == 'b' || kind in "UIL", if kind in "bB" then 1 else if kind in "Uu" then 2 else if kind in "Ii" then 4 else 8)
  }

  lemma IntegerIff(kind: char)
    ensures Integer(kind) == if kind in NUMBERS then Some(Width(kind)) else None
  {
  }

  predicate InRange(value: int, signed: bool, width: nat) {
    if signed then -(Pow256(width) / 2) <= value < Pow256(width) / 2 else 0 <= value < Pow256(width)
  }

  /** The two's complement bytes of a value. */
  function IntegerBytes(value: int, width: nat): (bytes: seq<byte>)
    ensures |bytes| == width
  {
    ToBigEndian(value % Pow256(width), width)
  }

  function FieldBytes(f: Field): seq<byte>
    decreases f, 0
  {
    match f
    case FlagField(on) => [if on then 1 else 0]
    case NumberField(kind, value) => IntegerBytes(value, Width(kind).1)
    case FloatField(kind, bits) => ToBigEndian(bits, if kind == 'f' then 4 else 8)
    case FixedField(scale, unscaled) => [scale] + IntegerBytes(unscaled, 4)
    case ShortField(bytes) => CountedBytes(bytes, 1)
    case LongField(bytes) => CountedBytes(bytes, 4)
    case BinaryField(bytes) => CountedBytes(bytes, 4)
    case TimeField(seconds) => IntegerBytes(seconds, 8)
    case NothingField => []
    case TableField(entries) => CountedBytes(EntriesBytes(entries), 4)
    case ListField(items) => CountedBytes(ItemsBytes(items), 4)
  }

  function Tagged(f: Field): seq<byte>
    decreases f, 1
  {
    [Kind(f) as int % 256] + FieldBytes(f)
  }

  function EntriesBytes(entries: seq<Entry>): seq<byte> {
    if entries == [] then []
    else CountedBytes(entries[0].name, 1) + Tagged(entries[0].value) + EntriesBytes(entries[1..])
  }

  function ItemsBytes(items: seq<Field>): seq<byte> {
    if items == [] then [] else Tagged(items[0]) + ItemsBytes(items[1..])
  }

  /** Fields the format can write: numbers in range and lengths that fit their prefix. */
  predicate Writable(f: Field) {
    match f
    case NumberField(kind, value) => kind in NUMBERS && InRange(value, Width(kind).0, Width(kind).1)
    case FloatField(kind, bits) => (kind == 'f' && bits < Pow256(4)) || (kind == 'd' && bits < Pow256(8))
    case FixedField(_, unscaled) => InRange(unscaled, true, 4)
    case ShortField(bytes) => |bytes| < 256
    case LongField(bytes) => |bytes| < Pow256(4)
    case BinaryField(bytes) => |bytes| < Pow256(4)
    case TimeField(seconds) => InRange(seconds, true, 8)
    case TableField(entries) => EntriesWritable(entries) && |EntriesBytes(entries)| < Pow256(4)
    case ListField(items) => ItemsWritable(items) && |ItemsBytes(items)| < Pow256(4)
    case _ => true
  }

  predicate EntriesWritable(entries: seq<Entry>) {
    entries == [] || (|entries[0].name| < 256 && Writable(entries[0].value) && EntriesWritable(entries[1..]))
  }

  predicate ItemsWritable(items: seq<Field>) {
    items == [] || (Writable(items[0]) && ItemsWritable(items[1..]))
  }

  /** What the proxy keeps of a field; of two entries with one name, the later. */
  function Meaning(f: Field): Decoded {
    match f
    case FlagField(on) => Flag(on)
    case NumberField(kind, value) => Number(kind, value)
    case FloatField(kind, bits) => Float(kind, bits)
    case FixedField(scale, unscaled) => Fixed(scale, unscaled)
    case ShortField(bytes) => Text(bytes)
    case LongField(bytes) => Text(bytes)
    case BinaryField(bytes) => Binary(|bytes|)
    case TimeField(seconds) => Time(seconds)
    case NothingField => Nothing
    case TableField(entries) => Table(Bound(entries, map[]))
    case ListField(items) => List(Meanings(items))
  }

  function Bound(entries: seq<Entry>, known: map<seq<byte>, Decoded>): map<seq<byte>, Decoded> {
    if entries == [] then known
    else Bound(entries[1..], known[entries[0].name := Meaning(entries[0].value)])
  }

  function Meanings(items: seq<Field>): seq<Decoded> {
    if items == [] then [] else [Meaning(items[0])] + Meanings(items[1..])
  }

  /** Nesting and entry counts within the decoder's limits, for a field at the given depth. */
  predicate Fits(f: Field, depth: nat) {
    && depth <= MAX_DEPTH
    && match f
       case TableField(entries) => EntriesFit(entries, {}, depth + 1)
       case ListField(items) => ItemsFit(items, depth + 1)
       case _ => true
  }

  /** `known` are the names already read. */
  predicate EntriesFit(entries: seq<Entry>, known: set<seq<byte>>, depth: nat) {
    && depth <= MAX_DEPTH
    && (entries == []
        || (|known| < MAX_ENTRIES && Fits(entries[0].value, depth) && EntriesFit(entries[1..], known + {entries[0].name}, depth)))
  }

  predicate ItemsFit(items: seq<Field>, depth: nat) {
    items == [] || (Fits(items[0], depth) && ItemsFit(items[1..], depth))
  }

  // ----- decoding what was encoded -------------------------------------------------------------

  lemma SignedInverse(value: int, signed: bool, width: nat)
    requires width > 0 && InRange(value, signed, width)
    ensures value == if signed then Signed(value % Pow256(width), width) else value % Pow256(width)
  {
    var p := Pow256(width);
    assert p == 256 * Pow256(width - 1);
    if value < 0 {
      ModOfNegative(value, p);
    } else {
      ModOfSmall(value, p);
    }
  }

  lemma ModOfNegative(value: int, p: int)
    requires p > 0 && -p <= value < 0
    ensures value % p == value + p
  {
  }

  lemma ModOfSmall(value: int, p: int)
    requires 0 <= value < p
    ensures value % p == value
  {
  }

  lemma IntegerReads(data: seq<byte>, pos: nat, value: int, signed: bool, width: nat)
    requires width > 0 && InRange(value, signed, width) && At(data, pos, IntegerBytes(value, width))
    ensures pos <= |data| && IntegerAt(data, pos, signed, width) == Some((value, pos + width))
  {
    hide ToBigEndian, BigEndian, Pow256;
    UnsignedAt(data, pos, value % Pow256(width), width);
    SignedInverse(value, signed, width);
  }

  predicate IsScalar(f: Field) {
    !f.TableField? && !f.ListField?
  }

  lemma ScalarReads(data: seq<byte>, pos: nat, f: Field)
    requires IsScalar(f) && Writable(f) && At(data, pos, FieldBytes(f))
    ensures pos <= |data| && ScalarAt(data, pos, Kind(f)) == Some((Meaning(f), pos + |FieldBytes(f)|))
  {
    hide ToBigEndian, BigEndian, Pow256, InRange, IntegerAt, Counted, CountedBytes, IntegerBytes, Unsigned;
    Widths();
    match f
    case FlagField(on) => OctetReads(data, pos, if on then 1 else 0);
    case NumberField(kind, value) => IntegerReads(data, pos, value, Width(kind).0, Width(kind).1);
    case FloatField(kind, bits) => UnsignedAt(data, pos, bits, if kind == 'f' then 4 else 8);
    case FixedField(scale, unscaled) =>
      AtConcat(data, pos, [scale], IntegerBytes(unscaled, 4));
      IntegerReads(data, pos + 1, unscaled, true, 4);
      assert data[pos..pos + 1][0] == scale;
    case ShortField(bytes) => CountedReads(data, pos, bytes, 1);
    case LongField(bytes) => CountedReads(data, pos, bytes, 4);
    case BinaryField(bytes) => CountedReads(data, pos, bytes, 4);
    case TimeField(seconds) => IntegerReads(data, pos, seconds, true, 8);
    case NothingField =>
  }

  lemma CountedReads(data: seq<byte>, pos: nat, bytes: seq<byte>, width: nat)
    requires |bytes| < Pow256(width) && At(data, pos, CountedBytes(bytes, width))
    ensures pos <= |data| && Counted(data, pos, width) == Some((bytes, pos + |CountedBytes(bytes, width)|))
  {
    hide Counted, ToBigEndian, Pow256;
    CountedIff(data, pos, bytes, width);
  }

  lemma OctetReads(data: seq<byte>, pos: nat, b: byte)
    requires At(data, pos, [b])
    ensures pos < |data| && data[pos] == b && Unsigned(data, pos, 1) == Some((b as nat, pos + 1))
  {
    assert data[pos..pos + 1] == [b];
    assert [b][..0] == [];
    assert BigEndian([b]) == b;
  }

  lemma ScalarKind(f: Field)
    requires Writable(f)
    ensures (Kind(f) == 'F' <==> f.TableField?) && (Kind(f) == 'A' <==> f.ListField?) && Kind(f) as int < 128
  {
    hide InRange, EntriesBytes, ItemsBytes, EntriesWritable, ItemsWritable;
  }

  lemma SpanReads(data: seq<byte>, pos: nat, body: seq<byte>)
    requires |body| < Pow256(4) && At(data, pos, CountedBytes(body, 4))
    ensures pos + 4 + |body| <= |data| && At(data, pos + 4, body)
    ensures Span(data, pos) == Some((pos + 4, pos + 4 + |body|))
  {
    hide ToBigEndian, BigEndian, Pow256, At, Unsigned;
    AtConcat(data, pos, ToBigEndian(|body|, 4), body);
    UnsignedAt(data, pos, |body|, 4);
    AtWithin(data, pos + 4, body);
  }

  lemma AtWithin(data: seq<byte>, pos: nat, bytes: seq<byte>)
    requires At(data, pos, bytes)
    ensures pos + |bytes| <= |data|
  {
  }

  /** One step of the decoder into a nested table. */
  lemma NestedTable(data: seq<byte>, pos: nat, depth: nat, next: nat, end: nat)
    requires pos <= |data| && depth <= MAX_DEPTH && Span(data, pos) == Some((next, end))
    ensures FieldValue(data, pos, 'F', depth)
         == match Entries(data, next, end, depth + 1, map[])
            case None => None
            case Some((entries, after)) => Some((Table(entries), after))
  {
    hide Entries, Span;
  }

  lemma NestedList(data: seq<byte>, pos: nat, depth: nat, next: nat, end: nat)
    requires pos <= |data| && depth <= MAX_DEPTH && Span(data, pos) == Some((next, end))
    ensures FieldValue(data, pos, 'A', depth)
         == match Items(data, next, end, depth, [])
            case None => None
            case Some((items, after)) => Some((List(items), after))
  {
    hide Items, Span;
  }

  lemma OneEntry(data: seq<byte>, pos: nat, end: nat, depth: nat, known: map<seq<byte>, Decoded>, name: seq<byte>,
                 afterName: nat)
    requires pos < end && pos < afterName < |data| && depth <= MAX_DEPTH && ShortStr(data, pos) == Some((name, afterName))
    ensures Entries(data, pos, end, depth, known)
         == if |known| >= MAX_ENTRIES then None
            else match FieldValue(data, afterName + 1, data[afterName] as char, depth)
                 case None => None
                 case Some((value, next)) => Entries(data, next, end, depth, known[name := value])
  {
    hide FieldValue, ShortStr;
  }

  lemma TooDeep(data: seq<byte>, pos: nat, end: nat, kind: char, known: map<seq<byte>, Decoded>)
    requires pos <= |data|
    ensures Entries(data, pos, end, MAX_DEPTH + 1, known) == None && FieldValue(data, pos, kind, MAX_DEPTH + 1) == None
  {
  }

  lemma LastEntry(data: seq<byte>, pos: nat, depth: nat, known: map<seq<byte>, Decoded>)
    requires pos <= |data| && depth <= MAX_DEPTH
    ensures Entries(data, pos, pos, depth, known) == Some((known, pos))
  {
  }

  lemma Scalars(data: seq<byte>, pos: nat, kind: char, depth: nat)
    requires pos <= |data| && depth <= MAX_DEPTH && kind != 'F' && kind != 'A'
    ensures FieldValue(data, pos, kind, depth) == ScalarAt(data, pos, kind)
  {
    hide ScalarAt;
  }

  /** A field that was written decodes to its meaning exactly when it is within the limits. */
  lemma {:induction false} FieldDecodes(data: seq<byte>, pos: nat, f: Field, depth: nat)
    requires Writable(f) && At(data, pos, FieldBytes(f)) && depth <= MAX_DEPTH + 1
    ensures pos <= |data|
    ensures FieldValue(data, pos, Kind(f), depth)
         == if Fits(f, depth) then Some((Meaning(f), pos + |FieldBytes(f)|)) else None
    decreases f, 1
  {
    hide ScalarAt, CountedBytes, At, Span, FieldValue, Entries, Items, Bound, Meanings, EntriesFit, ItemsFit,
      EntriesBytes, ItemsBytes, EntriesWritable, ItemsWritable, Pow256;
    AtWithin(data, pos, FieldBytes(f));
    ScalarKind(f);
    if depth > MAX_DEPTH {
      TooDeep(data, pos, pos, Kind(f), map[]);
    } else if f.TableField? {
      var body := EntriesBytes(f.entries);
      SpanReads(data, pos, body);
      NestedTable(data, pos, depth, pos + 4, pos + 4 + |body|);
      var none: map<seq<byte>, Decoded> := map[];
      EntriesDecode(data, pos + 4, f.entries, depth + 1, none);
      assert none.Keys == {};
      CountedLength(body, 4);
    } else if f.ListField? {
      var body := ItemsBytes(f.items);
      SpanReads(data, pos, body);
      NestedList(data, pos, depth, pos + 4, pos + 4 + |body|);
      ItemsDecode(data, pos + 4, f.items, depth, []);
      assert [] + Meanings(f.items) == Meanings(f.items);
      CountedLength(body, 4);
    } else {
      Scalars(data, pos, Kind(f), depth);
      ScalarReads(data, pos, f);
    }
  }

  lemma CountedLength(bytes: seq<byte>, width: nat)
    ensures |CountedBytes(bytes, width)| == width + |bytes|
  {
  }

  lemma {:induction false} EntriesDecode(data: seq<byte>, pos: nat, entries: seq<Entry>, depth: nat,
                        known: map<seq<byte>, Decoded>)
    requires EntriesWritable(entries) && At(data, pos, EntriesBytes(entries)) && depth <= MAX_DEPTH + 1
    ensures pos <= |data|
    ensures var end := pos + |EntriesBytes(entries)|;
            Entries(data, pos, end, depth, known) ==
            if EntriesFit(entries, known.Keys, depth) then Some((Bound(entries, known), end)) else None
    decreases entries, 0
  {
    hide ShortStr, CountedBytes, At, FieldValue, FieldBytes, Fits, Entries, Meaning, Writable, Kind, Tagged,
      EntriesBytes, EntriesWritable, EntriesFit, Bound, Pow256;
    AtWithin(data, pos, EntriesBytes(entries));
    var end := pos + |EntriesBytes(entries)|;
    if depth > MAX_DEPTH {
      LimitsFront(entries, known.Keys, depth);
      TooDeep(data, pos, end, 'V', known);
    } else if entries == [] {
      LimitsFront(entries, known.Keys, depth);
      NoEntries(known);
      LastEntry(data, pos, depth, known);
    } else {
      var first, rest := entries[0], entries[1..];
      var body := pos + |CountedBytes(first.name, 1)| + 1;
      EntryStep(data, pos, entries, depth, known);
      FieldDecodes(data, body, first.value, depth);
      if Fits(first.value, depth) {
        EntriesDecode(data, body + |FieldBytes(first.value)|, rest, depth, known[first.name := Meaning(first.value)]);
      }
    }
  }

  /** What the first entry contributes, apart from how its value decodes. */
  lemma EntryStep(data: seq<byte>, pos: nat, entries: seq<Entry>, depth: nat, known: map<seq<byte>, Decoded>)
    requires entries != [] && EntriesWritable(entries) && At(data, pos, EntriesBytes(entries)) && depth <= MAX_DEPTH
    ensures var first, rest := entries[0], entries[1..];
            var body := pos + |CountedBytes(first.name, 1)| + 1;
            var next, end := body + |FieldBytes(first.value)|, pos + |EntriesBytes(entries)|;
            var more := known[first.name := Meaning(first.value)];
            && Writable(first.value) && EntriesWritable(rest) && pos < body <= next <= end <= |data|
            && At(data, body, FieldBytes(first.value)) && At(data, next, EntriesBytes(rest)) && end == next + |EntriesBytes(rest)|
            && Entries(data, pos, end, depth, known)
               == (if |known| >= MAX_ENTRIES then None
                   else match FieldValue(data, body, Kind(first.value), depth)
                        case None => None
                        case Some((value, after)) => Entries(data, after, end, depth, known[first.name := value]))
            && (EntriesFit(entries, known.Keys, depth) <==>
                |known| < MAX_ENTRIES && Fits(first.value, depth) && EntriesFit(rest, more.Keys, depth))
            && Bound(entries, known) == Bound(rest, more)
  {
    hide ShortStr, CountedBytes, At, FieldValue, FieldBytes, Fits, Entries, Meaning, Writable, Kind, Tagged,
      EntriesBytes, EntriesWritable, EntriesFit, Bound, Pow256;
    var first, rest := entries[0], entries[1..];
    AtWithin(data, pos, EntriesBytes(entries));
    LimitsFront(entries, known.Keys, depth);
    EntriesFront(entries);
    BoundFront(entries, known);
    EntryReads(data, pos, first, EntriesBytes(rest));
    AtWithin(data, pos + |CountedBytes(first.name, 1)| + 1, FieldBytes(first.value));
    KeysGrow(known, first.name, Meaning(first.value));
    OneEntry(data, pos, pos + |EntriesBytes(entries)|, depth, known, first.name, pos + |CountedBytes(first.name, 1)|);
  }

  lemma KeysGrow(known: map<seq<byte>, Decoded>, name: seq<byte>, value: Decoded)
    ensures |known.Keys| == |known| && known[name := value].Keys == known.Keys + {name}
  {
  }

  lemma NoEntries(known: map<seq<byte>, Decoded>)
    ensures EntriesBytes([]) == [] && Bound([], known) == known
  {
  }

  lemma BoundFront(entries: seq<Entry>, known: map<seq<byte>, Decoded>)
    requires entries != []
    ensures Bound(entries, known) == Bound(entries[1..], known[entries[0].name := Meaning(entries[0].value)])
  {
    hide Meaning;
  }

  lemma LimitsFront(entries: seq<Entry>, known: set<seq<byte>>, depth: nat)
    ensures entries == [] ==> (EntriesFit(entries, known, depth) <==> depth <= MAX_DEPTH)
    ensures entries != [] ==>
            && (EntriesFit(entries, known, depth) <==>
                && depth <= MAX_DEPTH && |known| < MAX_ENTRIES
                && Fits(entries[0].value, depth) && EntriesFit(entries[1..], known + {entries[0].name}, depth))
            && (EntriesWritable(entries) ==>
                |entries[0].name| < 256 && Writable(entries[0].value) && EntriesWritable(entries[1..]))
  {
    hide Fits, Writable;
  }

  lemma EntriesFront(entries: seq<Entry>)
    requires entries != []
    ensures var first := entries[0];
            && EntriesBytes(entries) == CountedBytes(first.name, 1) + Tagged(first.value) + EntriesBytes(entries[1..])
            && |EntriesBytes(entries)|
               == |CountedBytes(first.name, 1)| + 1 + |FieldBytes(first.value)| + |EntriesBytes(entries[1..])|
            && |CountedBytes(first.name, 1)| > 0
  {
    hide FieldBytes;
  }

  lemma EntryReads(data: seq<byte>, pos: nat, e: Entry, rest: seq<byte>)
    requires |e.name| < 256 && Writable(e.value) && At(data, pos, CountedBytes(e.name, 1) + Tagged(e.value) + rest)
    ensures var afterName := pos + |CountedBytes(e.name, 1)|;
            && pos < afterName < |data| && ShortStr(data, pos) == Some((e.name, afterName))
            && data[afterName] as char == Kind(e.value)
            && At(data, afterName + 1, FieldBytes(e.value))
            && At(data, afterName + 1 + |FieldBytes(e.value)|, rest)
  {
    hide Counted, At, FieldBytes, ToBigEndian;
    var name, tag, body := CountedBytes(e.name, 1), [Kind(e.value) as int % 256], FieldBytes(e.value);
    AtConcat(data, pos, name + Tagged(e.value), rest);
    AtConcat(data, pos, name, Tagged(e.value));
    TagReads(data, pos + |name|, e.value);
    AtWithin(data, pos, name);
    Widths();
    CountedIff(data, pos, e.name, 1);
  }

  lemma TagReads(data: seq<byte>, pos: nat, f: Field)
    requires Writable(f) && At(data, pos, Tagged(f))
    ensures pos < |data| && data[pos] as char == Kind(f) && At(data, pos + 1, FieldBytes(f))
  {
    hide FieldBytes, At;
    ScalarKind(f);
    var tag: byte := Kind(f) as int % 256;
    AtConcat(data, pos, [tag], FieldBytes(f));
    OctetReads(data, pos, tag);
  }

  lemma {:induction false} ItemsDecode(data: seq<byte>, pos: nat, items: seq<Field>, depth: nat, known: seq<Decoded>)
    requires ItemsWritable(items) && At(data, pos, ItemsBytes(items)) && depth <= MAX_DEPTH
    ensures var end := pos + |ItemsBytes(items)|;
            end <= |data| &&
            Items(data, pos, end, depth, known) ==
            if ItemsFit(items, depth + 1) then Some((known + Meanings(items), end)) else None
    decreases items, 0
  {
    hide At, FieldValue, FieldBytes, Fits;
    AtWithin(data, pos, ItemsBytes(items));
    if items == [] {
      assert known + [] == known;
    } else {
      var first, rest := items[0], items[1..];
      AtConcat(data, pos, Tagged(first), ItemsBytes(rest));
      TagReads(data, pos, first);
      FieldDecodes(data, pos + 1, first, depth + 1);
      if Fits(first, depth + 1) {
        ItemsDecode(data, pos + 1 + |FieldBytes(first)|, rest, depth, known + [Meaning(first)]);
        assert known + [Meaning(first)] + Meanings(rest) == known + ([Meaning(first)] + Meanings(rest));
      }
    }
  }

  /** A whole table, as the standard writes it, is decoded to its meaning or refused for its size, nothing else. */
  lemma TableDecodes(entries: seq<Entry>)
    requires EntriesWritable(entries) && |EntriesBytes(entries)| < Pow256(4)
    ensures DecodeTable(CountedBytes(EntriesBytes(entries), 4))
         == if EntriesFit(entries, {}, 0) then Some(Bound(entries, map[])) else None
  {
    hide ToBigEndian, Unsigned, Entries, EntriesFit, At, EntriesBytes, EntriesWritable, Bound;
    var body := EntriesBytes(entries);
    var raw := CountedBytes(body, 4);
    WholeStands(raw);
    AtConcat(raw, 0, ToBigEndian(|body|, 4), body);
    UnsignedAt(raw, 0, |body|, 4);
    var none: map<seq<byte>, Decoded> := map[];
    EntriesDecode(raw, 4, entries, 0, none);
    assert none.Keys == {};
  }

  lemma WholeStands(data: seq<byte>)
    ensures At(data, 0, data)
  {
  }

  predicate DistinctNames(entries: seq<Entry>, known: set<seq<byte>>) {
    entries == [] || (entries[0].name !in known && DistinctNames(entries[1..], known + {entries[0].name}))
  }

  predicate ValuesFit(entries: seq<Entry>, depth: nat) {
    entries == [] || (Fits(entries[0].value, depth) && ValuesFit(entries[1..], depth))
  }

  /** With distinct names the limits are a count and a depth. */
  lemma {:induction false} DistinctFit(entries: seq<Entry>, known: set<seq<byte>>, depth: nat)
    requires DistinctNames(entries, known) && depth <= 16
    ensures EntriesFit(entries, known, depth) <==> ValuesFit(entries, depth) && (entries == [] || |known| + |entries| <= 1000)
    decreases |entries|
  {
    hide Fits;
    if entries != [] {
      assert |known + {entries[0].name}| == |known| + 1;
      DistinctFit(entries[1..], known + {entries[0].name}, depth);
    }
  }
}
