/**
 * The strict CBOR subset of security-key ceremonies (client/security-keys.js):
 * definite lengths, shortest arguments, unique keys and bounded depth, as in
 * sections 3 and 4.1 of RFC 8949. A text keeps the octets it was read from;
 * which octets are well-formed UTF-8 is a parameter.
 */
module SecurityKeyCbor {
  import opened Wrappers
  import opened Bytes

  const MAXIMUM_DEPTH := 8
  const MAXIMUM_ENTRIES := 64
  const MAXIMUM_INPUT := 65536

  datatype Value =
    | Boolean(flag: bool)
    | Null
    | Unsigned(magnitude: nat)
    | Negative(complement: nat)
    | ByteString(octets: seq<Byte>)
    | Text(raw: seq<Byte>)
    | List(items: seq<Value>)
    | Map(entries: seq<Entry>)

  datatype Entry = Entry(key: Value, value: Value)

  type Utf8 = seq<Byte> -> bool

  const BYTE_ORDER_MARK: seq<Byte> := [0xef, 0xbb, 0xbf]

  /** The octets of the string a decoder hands out: a leading byte order mark is dropped. */
  function Decoded(raw: seq<Byte>): seq<Byte> {
    if BYTE_ORDER_MARK <= raw then raw[3..] else raw
  }

  /** What two keys are compared by. */
  datatype Key = Number(n: int) | String(s: seq<Byte>)

  function KeyOf(v: Value): Option<Key> {
    match v
    case Unsigned(n) => Some(Number(n))
    case Negative(n) => Some(Number(-1 - n))
    case Text(raw) => Some(String(Decoded(raw)))
    case _ => None
  }

  predicate NewKey(entries: seq<Entry>, key: Value) {
    KeyOf(key).Some? && forall i :: 0 <= i < |entries| ==> KeyOf(entries[i].key) != KeyOf(key)
  }

  /** Every key is a text or an integer, and none occurs twice. */
  predicate KeysNew(entries: seq<Entry>) {
    && (forall i :: 0 <= i < |entries| ==> KeyOf(entries[i].key).Some?)
    && (forall i, j :: 0 <= i < j < |entries| ==> KeyOf(entries[i].key) != KeyOf(entries[j].key))
  }

  lemma LastKeyNew(front: seq<Entry>, last: Entry)
    ensures KeysNew(front + [last]) <==> KeysNew(front) && NewKey(front, last.key)
  {
    hide KeyOf;
    var entries := front + [last];
    if KeysNew(entries) {
      assert forall i :: 0 <= i < |front| ==> entries[i] == front[i];
      assert entries[|front|] == last;
    }
  }

  // ---- Printing ----

  /** The head of an item with the shortest argument. */
  function Head(major: nat, argument: nat): (s: seq<Byte>)
    requires major <= 5
    ensures |s| > 0
  {
    if argument < 24 then [32 * major + argument]
    else if argument < 0x100 then [32 * major + 24] + BigEndian(1, argument)
    else if argument < 0x1_0000 then [32 * major + 25] + BigEndian(2, argument)
    else [32 * major + 26] + BigEndian(4, argument)
  }

  function Print(v: Value): (s: seq<Byte>)
    ensures |s| > 0
  {
    match v
    case Boolean(flag) => [if flag then 0xf5 else 0xf4]
    case Null => [0xf6]
    case Unsigned(n) => Head(0, n)
    case Negative(n) => Head(1, n)
    case ByteString(octets) => Head(2, |octets|) + octets
    case Text(raw) => Head(3, |raw|) + raw
    case List(items) => Head(4, |items|) + PrintItems(items)
    case Map(entries) => Head(5, |entries|) + PrintEntries(entries)
  }

  function PrintItems(items: seq<Value>): seq<Byte> {
    if items == [] then [] else PrintItems(items[..|items| - 1]) + Print(items[|items| - 1])
  }

  function PrintEntries(entries: seq<Entry>): seq<Byte> {
    if entries == [] then [] else PrintEntries(entries[..|entries| - 1]) + PrintEntry(entries[|entries| - 1])
  }

  function PrintEntry(e: Entry): seq<Byte> {
    Print(e.key) + Print(e.value)
  }

  const ARGUMENT_LIMIT := 0x1_0000_0000

  /** The values the parser can return at nesting `depth`. */
  predicate Representable(v: Value, utf8: Utf8, depth: nat)
    decreases v
  {
    && depth <= MAXIMUM_DEPTH
    && match v
       case Boolean(_) => true
       case Null => true
       case Unsigned(n) => n < ARGUMENT_LIMIT
       case Negative(n) => n < ARGUMENT_LIMIT
       case ByteString(octets) => |octets| < ARGUMENT_LIMIT
       case Text(raw) => |raw| < ARGUMENT_LIMIT && utf8(raw)
       case List(items) =>
         |items| <= MAXIMUM_ENTRIES && forall i :: 0 <= i < |items| ==> Representable(items[i], utf8, depth + 1)
       case Map(entries) =>
         && |entries| <= MAXIMUM_ENTRIES && KeysNew(entries)
         && forall i :: 0 <= i < |entries| ==>
              Representable(entries[i].key, utf8, depth + 1) && Representable(entries[i].value, utf8, depth + 1)
  }

  // ---- What the parser accepts ----

  datatype Parsed<T> = Parsed(value: T, rest: seq<Byte>)

  datatype Argument = Argument(major: nat, additional: nat, length: nat)

  /** Whether an argument needs the width it was written in. */
  predicate Shortest(additional: nat, length: nat) {
    match additional
    case 24 => length >= 24
    case 25 => length >= 0x100
    case 26 => length >= 0x1_0000
    case _ => true
  }

  function Width(additional: nat): nat {
    if additional == 24 then 1 else if additional == 25 then 2 else if additional == 26 then 4 else 0
  }

  /** Initial octet and argument of an item of major type 0 to 5. */
  function ParseHead(s: seq<Byte>): (r: Option<Parsed<Argument>>)
    ensures r.Some? ==> |r.value.rest| < |s| && r.value.value.major <= 5
  {
    if s == [] then None
    else
      var major, additional := s[0] / 32, s[0] % 32;
      var width := Width(additional);
      if major > 5 || additional > 26 || |s| < 1 + width then None
      else
        var length := if additional < 24 then additional else FromBigEndian(s[1..1 + width]);
        if Shortest(additional, length) then Some(Parsed(Argument(major, additional, length), s[1 + width..])) else None
  }

  function Simple(first: Byte): Option<Value> {
    if first == 0xf4 then Some(Boolean(false))
    else if first == 0xf5 then Some(Boolean(true))
    else if first == 0xf6 then Some(Null)
    else None
  }

  function ParseItem(s: seq<Byte>, utf8: Utf8, depth: nat): (r: Option<Parsed<Value>>)
    ensures r.Some? ==> |r.value.rest| < |s|
    decreases |s|, 0, 0
  {
    if depth > MAXIMUM_DEPTH || s == [] then None
    else if s[0] >= 0xe0 then
      match Simple(s[0]) case None => None case Some(v) => Some(Parsed(v, s[1..]))
    else
      match ParseHead(s)
      case None => None
      case Some(Parsed(Argument(major, additional, length), rest)) =>
        if major == 0 then Some(Parsed(Unsigned(length), rest))
        else if major == 1 then Some(Parsed(Negative(length), rest))
        else if major == 2 then
          if length <= |rest| then Some(Parsed(ByteString(rest[..length]), rest[length..])) else None
        else if major == 3 then
          if length <= |rest| && utf8(rest[..length]) then Some(Parsed(Text(rest[..length]), rest[length..])) else None
        else if length > MAXIMUM_ENTRIES then None
        else if major == 4 then
          match ParseItems(rest, length, utf8, depth + 1)
          case None => None
          case Some(Parsed(items, after)) => Some(Parsed(List(items), after))
        else
          match ParseEntries(rest, length, utf8, depth + 1)
          case None => None
          case Some(Parsed(entries, after)) => Some(Parsed(Map(entries), after))
  }

  /** The first `count` items. */
  function ParseItems(s: seq<Byte>, count: nat, utf8: Utf8, depth: nat): (r: Option<Parsed<seq<Value>>>)
    ensures r.Some? ==> |r.value.rest| <= |s|
    decreases |s|, 1, count
  {
    if count == 0 then Some(Parsed([], s))
    else
      match ParseItems(s, count - 1, utf8, depth)
      case None => None
      case Some(Parsed(front, rest)) =>
        match ParseItem(rest, utf8, depth)
        case None => None
        case Some(Parsed(last, after)) => Some(Parsed(front + [last], after))
  }

  /** The first `count` entries; a key that is no text or integer, or that occurred before, is refused. */
  function ParseEntries(s: seq<Byte>, count: nat, utf8: Utf8, depth: nat): (r: Option<Parsed<seq<Entry>>>)
    ensures r.Some? ==> |r.value.rest| <= |s|
    decreases |s|, 1, count
  {
    if count == 0 then Some(Parsed([], s))
    else
      match ParseEntries(s, count - 1, utf8, depth)
      case None => None
      case Some(Parsed(front, rest)) => ParseEntry(front, rest, utf8, depth)
  }

  /** One more entry after `front`. */
  function ParseEntry(front: seq<Entry>, s: seq<Byte>, utf8: Utf8, depth: nat): (r: Option<Parsed<seq<Entry>>>)
    ensures r.Some? ==> |r.value.rest| <= |s|
    decreases |s|, 1, 0
  {
    match ParseItem(s, utf8, depth)
    case None => None
    case Some(Parsed(key, middle)) =>
      if !NewKey(front, key) then None
      else
        match ParseItem(middle, utf8, depth)
        case None => None
        case Some(Parsed(value, after)) => Some(Parsed(front + [Entry(key, value)], after))
  }

  // ---- Printing then parsing ----

  lemma WideHeadParses(major: nat, additional: nat, argument: nat, suffix: seq<Byte>)
    requires major <= 5 && 24 <= additional <= 26 && Shortest(additional, argument)
             && argument < Pow256(Width(additional))
    ensures var s := [32 * major + additional] + BigEndian(Width(additional), argument) + suffix;
            s[0] < 0xe0 && ParseHead(s) == Some(Parsed(Argument(major, additional, argument), suffix))
  {
    hide BigEndian, FromBigEndian, Pow256, Shortest;
    var width := Width(additional);
    var s := [32 * major + additional] + BigEndian(width, argument) + suffix;
    ReadsWhatWasWritten(width, argument);
    assert s[0] == 32 * major + additional;
    assert s[1..1 + width] == BigEndian(width, argument) && s[1 + width..] == suffix;
  }

  lemma HeadParses(major: nat, argument: nat, suffix: seq<Byte>)
    requires major <= 5 && argument < ARGUMENT_LIMIT
    ensures var r := ParseHead(Head(major, argument) + suffix);
            r.Some? && r.value.rest == suffix && r.value.value.major == major && r.value.value.length == argument
    ensures (Head(major, argument) + suffix)[0] < 0xe0
  {
    hide BigEndian, FromBigEndian, Pow256;
    Widths();
    if argument < 24 {
      assert ([32 * major + argument] + suffix)[1..] == suffix;
    } else {
      WideHeadParses(major, if argument < 0x100 then 24 else if argument < 0x1_0000 then 25 else 26, argument, suffix);
    }
  }

  /** Parsing a printed value followed by anything gives the value and what followed, at its exact length. */
  lemma {:induction false} ParseUndoesPrint(v: Value, utf8: Utf8, depth: nat, suffix: seq<Byte>)
    requires Representable(v, utf8, depth)
    ensures ParseItem(Print(v) + suffix, utf8, depth) == Some(Parsed(v, suffix))
    decreases v
  {
    hide Head, ParseHead, PrintItems, PrintEntries, ParseItems, ParseEntries, KeysNew;
    match v
    case Boolean(flag) =>
    case Null =>
    case Unsigned(n) => HeadParses(0, n, suffix);
    case Negative(n) => HeadParses(1, n, suffix);
    case ByteString(octets) =>
      HeadParses(2, |octets|, octets + suffix);
      assert Print(v) + suffix == Head(2, |octets|) + (octets + suffix);
    case Text(raw) =>
      HeadParses(3, |raw|, raw + suffix);
      assert Print(v) + suffix == Head(3, |raw|) + (raw + suffix);
    case List(items) =>
      HeadParses(4, |items|, PrintItems(items) + suffix);
      assert Print(v) + suffix == Head(4, |items|) + (PrintItems(items) + suffix);
      ItemsParse(items, utf8, depth + 1, suffix);
    case Map(entries) =>
      HeadParses(5, |entries|, PrintEntries(entries) + suffix);
      assert Print(v) + suffix == Head(5, |entries|) + (PrintEntries(entries) + suffix);
      EntriesParse(entries, PrintEntries(entries) + suffix, utf8, depth + 1, suffix);
  }

  lemma {:induction false} ItemsParse(items: seq<Value>, utf8: Utf8, depth: nat, suffix: seq<Byte>)
    requires forall i :: 0 <= i < |items| ==> Representable(items[i], utf8, depth)
    ensures ParseItems(PrintItems(items) + suffix, |items|, utf8, depth) == Some(Parsed(items, suffix))
    decreases items
  {
    hide ParseItem, Print, Representable;
    if items == [] {
      assert PrintItems(items) + suffix == suffix;
    } else {
      var front, last := items[..|items| - 1], items[|items| - 1];
      ItemsParse(front, utf8, depth, Print(last) + suffix);
      ParseUndoesPrint(last, utf8, depth, suffix);
      assert PrintItems(items) + suffix == PrintItems(front) + (Print(last) + suffix);
      assert items == front + [last];
    }
  }

  lemma {:induction false} EntriesParse(entries: seq<Entry>, s: seq<Byte>, utf8: Utf8, depth: nat, suffix: seq<Byte>)
    requires s == PrintEntries(entries) + suffix && KeysNew(entries)
    requires forall i :: 0 <= i < |entries| ==>
               Representable(entries[i].key, utf8, depth) && Representable(entries[i].value, utf8, depth)
    ensures ParseEntries(s, |entries|, utf8, depth) == Some(Parsed(entries, suffix))
    decreases entries
  {
    hide ParseItem, PrintEntry, Representable, NewKey, KeysNew, ParseEntry;
    if entries == [] {
      assert s == suffix;
    } else {
      hide PrintEntries, ParseEntries;
      var n := |entries| - 1;
      var front, last := entries[..n], entries[n];
      assert entries == front + [last];
      LastKeyNew(front, last);
      LastEntryPrinted(front, last);
      var middle := PrintEntry(last) + suffix;
      assert s == PrintEntries(front) + middle;
      EntriesParse(front, s, utf8, depth, middle);
      EntryParses(front, last, utf8, depth, suffix);
      LastEntryParsed(s, n + 1, utf8, depth);
    }
  }

  lemma LastEntryPrinted(front: seq<Entry>, last: Entry)
    ensures PrintEntries(front + [last]) == PrintEntries(front) + PrintEntry(last)
  {
    hide PrintEntry;
    assert (front + [last])[..|front|] == front;
  }

  lemma LastEntryParsed(s: seq<Byte>, count: nat, utf8: Utf8, depth: nat)
    requires count > 0
    ensures var front := ParseEntries(s, count - 1, utf8, depth);
            ParseEntries(s, count, utf8, depth)
            == if front.None? then None else ParseEntry(front.value.value, front.value.rest, utf8, depth)
  {
    hide ParseEntry;
  }

  lemma {:induction false} EntryParses(front: seq<Entry>, e: Entry, utf8: Utf8, depth: nat, suffix: seq<Byte>)
    requires Representable(e.key, utf8, depth) && Representable(e.value, utf8, depth) && NewKey(front, e.key)
    ensures ParseEntry(front, PrintEntry(e) + suffix, utf8, depth) == Some(Parsed(front + [e], suffix))
    decreases e
  {
    hide ParseItem, Print, Representable, NewKey;
    ParseUndoesPrint(e.key, utf8, depth, Print(e.value) + suffix);
    ParseUndoesPrint(e.value, utf8, depth, suffix);
    assert PrintEntry(e) + suffix == Print(e.key) + (Print(e.value) + suffix);
  }

  // ---- Parsing then printing ----

  /** A shortest argument is written in the width it was read from. */
  lemma HeadOfWidth(major: nat, additional: nat, length: nat)
    requires major <= 5 && additional <= 26 && Shortest(additional, length)
    requires if additional < 24 then length == additional else length < Pow256(Width(additional))
    ensures length < ARGUMENT_LIMIT
    ensures Head(major, length) == [32 * major + additional] + BigEndian(Width(additional), length)
  {
    Widths();
  }

  lemma ParsedHeadPrints(s: seq<Byte>)
    requires ParseHead(s).Some?
    ensures var r := ParseHead(s).value;
            s == Head(r.value.major, r.value.length) + r.rest && r.value.length < ARGUMENT_LIMIT
  {
    hide Head, BigEndian, FromBigEndian, Pow256;
    var r := ParseHead(s).value;
    var width := Width(r.value.additional);
    WritesWhatWasRead(s[1..1 + width]);
    HeadOfWidth(r.value.major, r.value.additional, r.value.length);
    if width == 0 {
      NoOctets(r.value.length);
    }
    assert s == [s[0]] + s[1..1 + width] + s[1 + width..];
  }

  lemma NoOctets(value: nat)
    ensures BigEndian(0, value) == []
  {
  }

  /** An accepted item is a representable value, and printing it gives back exactly the octets read. */
  lemma {:induction false} PrintUndoesParse(s: seq<Byte>, utf8: Utf8, depth: nat)
    requires ParseItem(s, utf8, depth).Some?
    ensures var r := ParseItem(s, utf8, depth).value;
            Representable(r.value, utf8, depth) && s == Print(r.value) + r.rest
    decreases |s|, 0, 0
  {
    hide Head, ParseHead, ParseItems, ParseEntries, PrintItems, PrintEntries, KeysNew;
    var r := ParseItem(s, utf8, depth).value;
    if s[0] >= 0xe0 {
      assert s == [s[0]] + s[1..];
    } else {
      ParsedHeadPrints(s);
      var head := ParseHead(s).value;
      var length, rest := head.value.length, head.rest;
      if head.value.major == 2 || head.value.major == 3 {
        assert rest == rest[..length] + rest[length..];
        assert s == (Head(head.value.major, length) + rest[..length]) + rest[length..];
      } else if head.value.major == 4 {
        ParsedItemsPrint(rest, length, utf8, depth + 1);
        assert s == (Head(4, length) + PrintItems(r.value.items)) + r.rest;
      } else if head.value.major == 5 {
        ParsedEntriesPrint(rest, length, utf8, depth + 1);
        assert s == (Head(5, length) + PrintEntries(r.value.entries)) + r.rest;
      }
    }
  }

  lemma {:induction false} ParsedItemsPrint(s: seq<Byte>, count: nat, utf8: Utf8, depth: nat)
    requires ParseItems(s, count, utf8, depth).Some?
    ensures var r := ParseItems(s, count, utf8, depth).value;
            && |r.value| == count && s == PrintItems(r.value) + r.rest
            && forall i :: 0 <= i < |r.value| ==> Representable(r.value[i], utf8, depth)
    decreases |s|, 1, count
  {
    hide ParseItem, Print, Representable;
    if count == 0 {
      assert s == PrintItems([]) + s;
    } else {
      ParsedItemsPrint(s, count - 1, utf8, depth);
      var front := ParseItems(s, count - 1, utf8, depth).value;
      PrintUndoesParse(front.rest, utf8, depth);
      var r := ParseItems(s, count, utf8, depth).value;
      assert r.value[..count - 1] == front.value;
      assert s == (PrintItems(front.value) + Print(r.value[count - 1])) + r.rest;
    }
  }

  lemma {:induction false} ParsedEntriesPrint(s: seq<Byte>, count: nat, utf8: Utf8, depth: nat)
    requires ParseEntries(s, count, utf8, depth).Some?
    ensures var r := ParseEntries(s, count, utf8, depth).value;
            && |r.value| == count && s == PrintEntries(r.value) + r.rest
            && KeysNew(r.value)
            && forall i :: 0 <= i < |r.value| ==>
                 Representable(r.value[i].key, utf8, depth) && Representable(r.value[i].value, utf8, depth)
    decreases |s|, 1, count
  {
    hide ParseItem, PrintEntry, Representable, NewKey, ParseEntry;
    if count == 0 {
      assert s == PrintEntries([]) + s;
    } else {
      hide KeysNew, PrintEntries, ParseEntries;
      LastEntryParsed(s, count, utf8, depth);
      ParsedEntriesPrint(s, count - 1, utf8, depth);
      var front := ParseEntries(s, count - 1, utf8, depth).value;
      ParsedEntryPrints(front.value, front.rest, utf8, depth);
      var r := ParseEntries(s, count, utf8, depth).value;
      var last := r.value[count - 1];
      assert r.value == front.value + [last];
      LastKeyNew(front.value, last);
      LastEntryPrinted(front.value, last);
      assert s == (PrintEntries(front.value) + PrintEntry(last)) + r.rest;
    }
  }

  lemma {:induction false} ParsedEntryPrints(front: seq<Entry>, s: seq<Byte>, utf8: Utf8, depth: nat)
    requires ParseEntry(front, s, utf8, depth).Some?
    ensures var r := ParseEntry(front, s, utf8, depth).value;
            && |r.value| == |front| + 1 && r.value[..|front|] == front
            && var last := r.value[|front|];
               && NewKey(front, last.key) && s == PrintEntry(last) + r.rest
               && Representable(last.key, utf8, depth) && Representable(last.value, utf8, depth)
    decreases |s|, 1, 0
  {
    hide ParseItem, Print, Representable, NewKey;
    PrintUndoesParse(s, utf8, depth);
    var key := ParseItem(s, utf8, depth).value;
    PrintUndoesParse(key.rest, utf8, depth);
    var r := ParseEntry(front, s, utf8, depth).value;
    var last := r.value[|front|];
    assert s == (Print(last.key) + Print(last.value)) + r.rest;
  }

  /** No two encodings of one value: what is accepted as equal values was equal octets. */
  lemma EncodingIsUnique(s: seq<Byte>, t: seq<Byte>, utf8: Utf8, depth: nat)
    requires ParseItem(s, utf8, depth).Some? && ParseItem(t, utf8, depth).Some?
    requires ParseItem(s, utf8, depth).value.value == ParseItem(t, utf8, depth).value.value
    requires ParseItem(s, utf8, depth).value.rest == [] == ParseItem(t, utf8, depth).value.rest
    ensures s == t
  {
    hide ParseItem, Print;
    PrintUndoesParse(s, utf8, depth);
    PrintUndoesParse(t, utf8, depth);
    var v := ParseItem(s, utf8, depth).value.value;
    assert Print(v) + [] == Print(v);
  }

  /** Two texts read as the same string exactly when they are equal up to one leading byte order mark. */
  lemma SameStringSameOctets(a: seq<Byte>, b: seq<Byte>)
    ensures Decoded(a) == Decoded(b) <==>
            || a == b
            || (a == BYTE_ORDER_MARK + b && !(BYTE_ORDER_MARK <= b))
            || (b == BYTE_ORDER_MARK + a && !(BYTE_ORDER_MARK <= a))
  {
    if BYTE_ORDER_MARK <= a {
      assert a == BYTE_ORDER_MARK + a[3..];
    }
    if BYTE_ORDER_MARK <= b {
      assert b == BYTE_ORDER_MARK + b[3..];
    }
  }

  // ---- Which keys are one key ----

  /** The same string, once a text's leading byte order mark is gone. */
  predicate SameString(a: seq<Byte>, b: seq<Byte>) {
    || a == b
    || (a == BYTE_ORDER_MARK + b && !(BYTE_ORDER_MARK <= b))
    || (b == BYTE_ORDER_MARK + a && !(BYTE_ORDER_MARK <= a))
  }

  /** Integers of one number, or texts of one string. */
  predicate SameKey(v: Value, w: Value) {
    || (v.Unsigned? && w.Unsigned? && v.magnitude == w.magnitude)
    || (v.Negative? && w.Negative? && v.complement == w.complement)
    || (v.Text? && w.Text? && SameString(v.raw, w.raw))
  }

  predicate MayBeKey(v: Value) {
    v.Unsigned? || v.Negative? || v.Text?
  }

  /** Integers and texts may be keys; two of them clash exactly when they are one number or one string. */
  lemma KeysClashExactly(v: Value, w: Value)
    ensures KeyOf(v).Some? <==> MayBeKey(v)
    ensures MayBeKey(v) && MayBeKey(w) ==> (KeyOf(v) == KeyOf(w) <==> SameKey(v, w))
  {
    if v.Text? && w.Text? {
      SameStringSameOctets(v.raw, w.raw);
    }
  }

  /** Its own encoding is read back. */
  ghost predicate Readable(v: Value, utf8: Utf8, depth: nat) {
    ParseItem(Print(v), utf8, depth) == Some(Parsed(v, []))
  }

  /**
   * What is accepted, kind by kind, whatever follows it: at most eight deep,
   * numbers and lengths of 32 bits, texts in UTF-8, lists and maps of at most
   * 64 accepted members, and keys that may be keys, no two of which clash.
   */
  lemma ItemAcceptedExactly(v: Value, utf8: Utf8, depth: nat, suffix: seq<Byte>)
    ensures ParseItem(Print(v) + suffix, utf8, depth) == Some(Parsed(v, suffix)) <==>
            && depth <= 8
            && match v
               case Boolean(_) => true
               case Null => true
               case Unsigned(n) => n < 4294967296
               case Negative(n) => n < 4294967296
               case ByteString(octets) => |octets| < 4294967296
               case Text(raw) => |raw| < 4294967296 && utf8(raw)
               case List(items) => |items| <= 64 && forall i :: 0 <= i < |items| ==> Readable(items[i], utf8, depth + 1)
               case Map(entries) =>
                 && |entries| <= 64
                 && (forall i :: 0 <= i < |entries| ==>
                       && MayBeKey(entries[i].key)
                       && Readable(entries[i].key, utf8, depth + 1) && Readable(entries[i].value, utf8, depth + 1))
                 && forall i, j :: 0 <= i < j < |entries| ==> !SameKey(entries[i].key, entries[j].key)
  {
    hide KeyOf, SameKey, MayBeKey, KeysNew, Readable;
    ReadExactly(v, utf8, depth, suffix);
    match v
    case List(items) =>
      forall i | 0 <= i < |items|
        ensures Readable(items[i], utf8, depth + 1) <==> Representable(items[i], utf8, depth + 1)
      {
        ReadableExactly(items[i], utf8, depth + 1);
      }
    case Map(entries) =>
      KeysNewExactly(entries);
      forall i | 0 <= i < |entries|
        ensures Readable(entries[i].key, utf8, depth + 1) <==> Representable(entries[i].key, utf8, depth + 1)
        ensures Readable(entries[i].value, utf8, depth + 1) <==> Representable(entries[i].value, utf8, depth + 1)
      {
        ReadableExactly(entries[i].key, utf8, depth + 1);
        ReadableExactly(entries[i].value, utf8, depth + 1);
      }
    case _ =>
  }

  lemma ReadExactly(v: Value, utf8: Utf8, depth: nat, suffix: seq<Byte>)
    ensures ParseItem(Print(v) + suffix, utf8, depth) == Some(Parsed(v, suffix)) <==> Representable(v, utf8, depth)
  {
    hide ParseItem, Print, Representable;
    if Representable(v, utf8, depth) {
      ParseUndoesPrint(v, utf8, depth, suffix);
    } else if ParseItem(Print(v) + suffix, utf8, depth) == Some(Parsed(v, suffix)) {
      PrintUndoesParse(Print(v) + suffix, utf8, depth);
    }
  }

  lemma ReadableExactly(v: Value, utf8: Utf8, depth: nat)
    ensures Readable(v, utf8, depth) <==> Representable(v, utf8, depth)
  {
    hide ParseItem, Print, Representable;
    ReadExactly(v, utf8, depth, []);
    assert Print(v) + [] == Print(v);
  }

  lemma KeysNewExactly(entries: seq<Entry>)
    ensures KeysNew(entries) <==>
            && (forall i :: 0 <= i < |entries| ==> MayBeKey(entries[i].key))
            && forall i, j :: 0 <= i < j < |entries| ==> !SameKey(entries[i].key, entries[j].key)
  {
    hide KeyOf, SameKey, MayBeKey;
    forall i | 0 <= i < |entries| ensures KeyOf(entries[i].key).Some? <==> MayBeKey(entries[i].key) {
      KeysClashExactly(entries[i].key, entries[i].key);
    }
    forall i, j | 0 <= i < j < |entries|
      ensures MayBeKey(entries[i].key) && MayBeKey(entries[j].key) ==>
                (KeyOf(entries[i].key) == KeyOf(entries[j].key) <==> SameKey(entries[i].key, entries[j].key))
    {
      KeysClashExactly(entries[i].key, entries[j].key);
    }
  }

  // ---- Octets and what they stand for ----

  /** The argument of an item's head, by its first octet and the one, two or four octets behind it. */
  ghost predicate HasArgument(s: seq<Byte>, argument: nat) {
    && s != []
    && var low := s[0] % 32;
       || (low < 24 && argument == low)
       || (low == 24 && |s| >= 2 && argument == s[1] && argument >= 24)
       || (low == 25 && |s| >= 3 && argument == 256 * (s[1] as int) + s[2] && argument >= 256)
       || (low == 26 && |s| >= 5 && argument >= 65536
           && argument == 256 * (256 * (256 * (s[1] as int) + s[2]) + s[3]) + s[4])
  }

  lemma HeadHasArgument(s: seq<Byte>)
    requires ParseHead(s).Some?
    ensures HasArgument(s, ParseHead(s).value.value.length)
  {
    var n := 1 + Width(s[0] % 32);
    var t := s[1..n];
    if |t| > 0 {
      FromBigEndianStep(t);
    }
    if |t| > 1 {
      FromBigEndianStep(t[..|t| - 1]);
    }
    if |t| > 2 {
      FromBigEndianStep(t[..|t| - 1][..|t| - 2]);
      FromBigEndianStep(t[..|t| - 1][..|t| - 2][..|t| - 3]);
    }
  }

  lemma FromBigEndianStep(t: seq<Byte>)
    requires t != []
    ensures FromBigEndian(t) == 256 * FromBigEndian(t[..|t| - 1]) + t[|t| - 1]
    ensures |t| == 1 ==> FromBigEndian(t[..0]) == 0
  {
  }

  /** What is read from its first octet: the kind of an accepted item, and its number, length or truth. */
  lemma FirstOctetDecides(s: seq<Byte>, utf8: Utf8, depth: nat)
    requires ParseItem(s, utf8, depth).Some?
    ensures var v := ParseItem(s, utf8, depth).value.value;
            match v
            case Unsigned(n) => s[0] < 0x20 && HasArgument(s, n)
            case Negative(n) => 0x20 <= s[0] < 0x40 && HasArgument(s, n)
            case ByteString(octets) => 0x40 <= s[0] < 0x60 && HasArgument(s, |octets|)
            case Text(raw) => 0x60 <= s[0] < 0x80 && HasArgument(s, |raw|)
            case List(items) => 0x80 <= s[0] < 0xa0 && HasArgument(s, |items|)
            case Map(entries) => 0xa0 <= s[0] < 0xc0 && HasArgument(s, |entries|)
            case Boolean(flag) => s[0] == if flag then 0xf5 else 0xf4
            case Null => s[0] == 0xf6
  {
    hide ParseHead, ParseItems, ParseEntries, HasArgument;
    if s[0] < 0xe0 {
      HeadHasArgument(s);
      HeadMajor(s);
      var head := ParseHead(s).value;
      if head.value.major == 4 {
        ParsedItemsPrint(head.rest, head.value.length, utf8, depth + 1);
      } else if head.value.major == 5 {
        ParsedEntriesPrint(head.rest, head.value.length, utf8, depth + 1);
      }
    }
  }

  /** How many octets the head of an item takes, by the first of them. */
  function HeadSize(first: Byte): nat {
    if first % 32 == 24 then 2 else if first % 32 == 25 then 3 else if first % 32 == 26 then 5 else 1
  }

  /** Each item is read where the one before it ended; `at` is what is left before each of them and at the end. */
  ghost predicate ItemsRead(items: seq<Value>, at: seq<seq<Byte>>, utf8: Utf8, depth: nat) {
    && |at| == |items| + 1
    && forall i :: 0 <= i < |items| ==> ParseItem(at[i], utf8, depth) == Some(Parsed(items[i], at[i + 1]))
  }

  /** So is each entry, its key before its value. */
  ghost predicate EntriesRead(entries: seq<Entry>, at: seq<seq<Byte>>, utf8: Utf8, depth: nat) {
    && |at| == |entries| + 1
    && forall i :: 0 <= i < |entries| ==> EntryRead(entries[i], at[i], at[i + 1], utf8, depth)
  }

  ghost predicate EntryRead(e: Entry, s: seq<Byte>, rest: seq<Byte>, utf8: Utf8, depth: nat) {
    var key := ParseItem(s, utf8, depth);
    key.Some? && key.value.value == e.key && ParseItem(key.value.rest, utf8, depth) == Some(Parsed(e.value, rest))
  }

  /**
   * An item behind its head: octets of a string as they are, the members of a
   * list one after the other, the entries of a map likewise, and of any other
   * item nothing.
   */
  lemma ReadInTurn(s: seq<Byte>, utf8: Utf8, depth: nat) returns (at: seq<seq<Byte>>)
    requires ParseItem(s, utf8, depth).Some?
    ensures s != [] && HeadSize(s[0]) <= |s|
    ensures var r := ParseItem(s, utf8, depth).value; var body := s[HeadSize(s[0])..];
            match r.value
            case ByteString(octets) => body == octets + r.rest
            case Text(raw) => body == raw + r.rest
            case List(items) => ItemsRead(items, at, utf8, depth + 1) && at[0] == body && at[|items|] == r.rest
            case Map(entries) => EntriesRead(entries, at, utf8, depth + 1) && at[0] == body && at[|entries|] == r.rest
            case _ => body == r.rest
  {
    hide ParseHead, ParseItems, ParseEntries, EntryRead;
    at := [];
    if s[0] < 0xe0 {
      HeadSpan(s);
      var head := ParseHead(s).value;
      if head.value.major == 4 {
        at := ItemsInTurn(head.rest, head.value.length, utf8, depth + 1);
      } else if head.value.major == 5 {
        at := EntriesInTurn(head.rest, head.value.length, utf8, depth + 1);
      }
    }
  }

  lemma HeadSpan(s: seq<Byte>)
    requires ParseHead(s).Some?
    ensures s != [] && HeadSize(s[0]) <= |s| && ParseHead(s).value.rest == s[HeadSize(s[0])..]
  {
  }

  lemma {:induction false} ItemsInTurn(s: seq<Byte>, count: nat, utf8: Utf8, depth: nat) returns (at: seq<seq<Byte>>)
    requires ParseItems(s, count, utf8, depth).Some?
    ensures var r := ParseItems(s, count, utf8, depth).value;
            ItemsRead(r.value, at, utf8, depth) && at[0] == s && at[|r.value|] == r.rest
  {
    hide ParseItem;
    if count == 0 {
      at := [s];
    } else {
      at := ItemsInTurn(s, count - 1, utf8, depth);
      at := at + [ParseItems(s, count, utf8, depth).value.rest];
    }
  }

  lemma {:induction false} EntriesInTurn(s: seq<Byte>, count: nat, utf8: Utf8, depth: nat) returns (at: seq<seq<Byte>>)
    requires ParseEntries(s, count, utf8, depth).Some?
    ensures var r := ParseEntries(s, count, utf8, depth).value;
            EntriesRead(r.value, at, utf8, depth) && at[0] == s && at[|r.value|] == r.rest
  {
    hide ParseItem, ParseEntry, EntryRead;
    if count == 0 {
      at := [s];
    } else {
      hide ParseEntries;
      LastEntryParsed(s, count, utf8, depth);
      var front := ParseEntries(s, count - 1, utf8, depth).value;
      var before := EntriesInTurn(s, count - 1, utf8, depth);
      LastEntryRead(front.value, front.rest, utf8, depth);
      at := before + [ParseEntries(s, count, utf8, depth).value.rest];
    }
  }

  lemma LastEntryRead(front: seq<Entry>, s: seq<Byte>, utf8: Utf8, depth: nat)
    requires ParseEntry(front, s, utf8, depth).Some?
    ensures var r := ParseEntry(front, s, utf8, depth).value;
            |r.value| == |front| + 1 && r.value == front + [r.value[|front|]]
            && EntryRead(r.value[|front|], s, r.rest, utf8, depth)
  {
    hide ParseItem, NewKey;
  }

  lemma HeadMajor(s: seq<Byte>)
    requires ParseHead(s).Some?
    ensures s != [] && ParseHead(s).value.value.major == s[0] / 32
  {
  }

  /** The public key of a registration on curve P-256, with the point's coordinates in place. */
  function CoseKey(x: seq<Byte>, y: seq<Byte>): Value {
    Map([Entry(Unsigned(1), Unsigned(2)), Entry(Unsigned(3), Negative(6)), Entry(Negative(0), Unsigned(1)),
         Entry(Negative(1), ByteString(x)), Entry(Negative(2), ByteString(y))])
  }

  /** Octets of every such key are accepted, whatever follows them, and give its five entries. */
  lemma CoseKeyIsAccepted(x: seq<Byte>, y: seq<Byte>, utf8: Utf8, suffix: seq<Byte>)
    requires |x| == |y| == 32
    ensures ParseItem([0xa5, 0x01, 0x02, 0x03, 0x26, 0x20, 0x01, 0x21, 0x58, 0x20] + x + [0x22, 0x58, 0x20] + y
                      + suffix, utf8, 0)
         == Some(Parsed(CoseKey(x, y), suffix))
  {
    hide ParseItem, Print, PrintEntries;
    CoseEntries(x, y);
    CosePrinted(x, y);
    KeysNewExactly(CoseKey(x, y).entries);
    ReadExactly(CoseKey(x, y), utf8, 0, suffix);
    assert [0xa5, 0x01, 0x02, 0x03, 0x26, 0x20, 0x01, 0x21, 0x58, 0x20] + x + [0x22, 0x58, 0x20] + y + suffix
        == Print(CoseKey(x, y)) + suffix;
  }

  lemma CoseEntries(x: seq<Byte>, y: seq<Byte>)
    requires |x| == |y| == 32
    ensures var e := CoseKey(x, y).entries;
            && PrintEntry(e[0]) == [0x01, 0x02] && PrintEntry(e[1]) == [0x03, 0x26] && PrintEntry(e[2]) == [0x20, 0x01]
            && PrintEntry(e[3]) == [0x21] + ([0x58, 0x20] + x) && PrintEntry(e[4]) == [0x22] + ([0x58, 0x20] + y)
  {
    hide Print, Head;
    SmallIntegers(1);
    SmallIntegers(2);
    SmallIntegers(3);
    SmallIntegers(6);
    SmallIntegers(0);
    Coordinate(x);
    Coordinate(y);
  }

  lemma SmallIntegers(n: nat)
    requires n < 24
    ensures Print(Unsigned(n)) == [n] && Print(Negative(n)) == [0x20 + n]
  {
  }

  lemma Coordinate(x: seq<Byte>)
    requires |x| == 32
    ensures Print(ByteString(x)) == [0x58, 0x20] + x
  {
    hide BigEndian;
    OneOctet(32);
    assert Head(2, 32) == [0x58] + BigEndian(1, 32) == [0x58, 0x20];
  }

  lemma OneOctet(n: Byte)
    ensures BigEndian(1, n) == [n]
  {
    assert BigEndian(1, n) == BigEndian(0, n / 256) + [n];
  }

  lemma CosePrinted(x: seq<Byte>, y: seq<Byte>)
    requires |x| == |y| == 32
    ensures Print(CoseKey(x, y))
         == [0xa5, 0x01, 0x02, 0x03, 0x26, 0x20, 0x01, 0x21, 0x58, 0x20] + x + [0x22, 0x58, 0x20] + y
  {
    hide PrintEntry;
    CoseEntries(x, y);
    var e := CoseKey(x, y).entries;
    assert e[..1] == [e[0]] && e[..1][..0] == [];
    assert e[..2][..1] == e[..1] && e[..3][..2] == e[..2] && e[..4][..3] == e[..3] && e[..5][..4] == e[..4];
    assert e[..5] == e;
    assert PrintEntries(e[..1]) == PrintEntry(e[0]);
    assert PrintEntries(e[..2]) == PrintEntries(e[..1]) + PrintEntry(e[1]);
    assert PrintEntries(e[..3]) == PrintEntries(e[..2]) + PrintEntry(e[2]);
    assert PrintEntries(e[..4]) == PrintEntries(e[..3]) + PrintEntry(e[3]);
    assert PrintEntries(e) == PrintEntries(e[..4]) + PrintEntry(e[4]);
  }

  /** The value as the source hands it out: every text is a string by then. */
  function Returned(v: Value): Value
    decreases v
  {
    match v
    case Text(raw) => Text(Decoded(raw))
    case List(items) => List(seq(|items|, i requires 0 <= i < |items| => Returned(items[i])))
    case Map(entries) =>
      Map(seq(|entries|, i requires 0 <= i < |entries| => Entry(Returned(entries[i].key), Returned(entries[i].value))))
    case _ => v
  }

  /** The other octets that read as the same string, if the parser takes them. */
  function SwitchedText(raw: seq<Byte>, utf8: Utf8): seq<Byte> {
    var other := if BYTE_ORDER_MARK <= raw then raw[3..] else BYTE_ORDER_MARK + raw;
    if Decoded(other) == Decoded(raw) && |other| < ARGUMENT_LIMIT && utf8(other) then other else raw
  }

  /** Every text with other octets takes them. */
  function Switched(v: Value, utf8: Utf8): Value
    decreases v
  {
    match v
    case Text(raw) => Text(SwitchedText(raw, utf8))
    case List(items) => List(seq(|items|, i requires 0 <= i < |items| => Switched(items[i], utf8)))
    case Map(entries) =>
      Map(seq(|entries|, i requires 0 <= i < |entries| =>
                           Entry(Switched(entries[i].key, utf8), Switched(entries[i].value, utf8))))
    case _ => v
  }

  lemma KeyIsReturned(v: Value, w: Value)
    requires Returned(v) == Returned(w)
    ensures KeyOf(v) == KeyOf(w)
  {
  }

  lemma {:induction false} SwitchedIsAccepted(v: Value, utf8: Utf8, depth: nat)
    requires Representable(v, utf8, depth)
    ensures Representable(Switched(v, utf8), utf8, depth) && Returned(Switched(v, utf8)) == Returned(v)
    decreases v
  {
    hide KeysNew;
    match v
    case List(items) =>
      forall i | 0 <= i < |items|
        ensures Representable(Switched(items[i], utf8), utf8, depth + 1)
                && Returned(Switched(items[i], utf8)) == Returned(items[i])
      {
        SwitchedIsAccepted(items[i], utf8, depth + 1);
      }
      assert Returned(Switched(v, utf8)).items == Returned(v).items;
    case Map(entries) =>
      SwitchedEntriesAccepted(entries, utf8, depth + 1);
    case _ =>
  }

  lemma {:induction false} SwitchedEntriesAccepted(entries: seq<Entry>, utf8: Utf8, depth: nat)
    requires |entries| <= MAXIMUM_ENTRIES && KeysNew(entries) && 0 < depth <= MAXIMUM_DEPTH + 1
    requires forall i :: 0 <= i < |entries| ==>
                           Representable(entries[i].key, utf8, depth) && Representable(entries[i].value, utf8, depth)
    ensures Representable(Switched(Map(entries), utf8), utf8, depth - 1)
    ensures Returned(Switched(Map(entries), utf8)) == Returned(Map(entries))
    decreases entries
  {
    var after := Switched(Map(entries), utf8).entries;
    forall i | 0 <= i < |entries|
      ensures Representable(after[i].key, utf8, depth) && Representable(after[i].value, utf8, depth)
      ensures Returned(after[i].key) == Returned(entries[i].key)
              && Returned(after[i].value) == Returned(entries[i].value)
      ensures KeyOf(after[i].key) == KeyOf(entries[i].key)
    {
      SwitchedIsAccepted(entries[i].key, utf8, depth);
      SwitchedIsAccepted(entries[i].value, utf8, depth);
      KeyIsReturned(after[i].key, entries[i].key);
    }
    assert Returned(Map(after)).entries == Returned(Map(entries)).entries;
  }

  lemma {:induction false} UnswitchedIsAlone(v: Value, w: Value, utf8: Utf8, depth: nat)
    requires Representable(w, utf8, depth) && Returned(v) == Returned(w) && Switched(v, utf8) == v
    ensures v == w
    decreases v
  {
    match v
    case Text(raw) => SameStringSameOctets(raw, w.raw);
    case List(items) =>
      forall i | 0 <= i < |items| ensures items[i] == w.items[i] {
        assert Returned(v).items[i] == Returned(w).items[i] && Switched(v, utf8).items[i] == items[i];
        UnswitchedIsAlone(items[i], w.items[i], utf8, depth + 1);
      }
    case Map(entries) =>
      forall i | 0 <= i < |entries| ensures entries[i] == w.entries[i] {
        assert Returned(v).entries[i] == Returned(w).entries[i] && Switched(v, utf8).entries[i] == entries[i];
        UnswitchedIsAlone(entries[i].key, w.entries[i].key, utf8, depth + 1);
        UnswitchedIsAlone(entries[i].value, w.entries[i].value, utf8, depth + 1);
      }
    case _ =>
  }

  /** The whole of `s` is one accepted item that is handed out as `v`. */
  predicate HandsOut(s: seq<Byte>, utf8: Utf8, v: Value) {
    var r := ParseItem(s, utf8, 0);
    r.Some? && r.value.rest == [] && Returned(r.value.value) == v
  }

  /**
   * As values are handed out, with strings for texts, an encoding is the only
   * one of its value exactly when none of its texts can gain or lose a leading
   * byte order mark.
   */
  lemma OnlyEncodingExactly(v: Value, utf8: Utf8)
    requires Representable(v, utf8, 0)
    ensures (forall t :: HandsOut(t, utf8, Returned(v)) ==> t == Print(v)) <==> Switched(v, utf8) == v
  {
    hide ParseItem, Print, Representable, Returned, Switched;
    PrintedIsHandedOut(v, utf8);
    var other := Switched(v, utf8);
    SwitchedIsAccepted(v, utf8, 0);
    PrintedIsHandedOut(other, utf8);
    if Print(other) == Print(v) {
      assert other == v;
    }
    forall t | HandsOut(t, utf8, Returned(v)) && other == v ensures t == Print(v) {
      PrintUndoesParse(t, utf8, 0);
      var w := ParseItem(t, utf8, 0).value.value;
      UnswitchedIsAlone(v, w, utf8, 0);
      assert Print(v) + [] == Print(v);
    }
  }

  lemma PrintedIsHandedOut(v: Value, utf8: Utf8)
    requires Representable(v, utf8, 0)
    ensures HandsOut(Print(v), utf8, Returned(v)) && ParseItem(Print(v), utf8, 0) == Some(Parsed(v, []))
  {
    hide ParseItem, Print, Representable, Returned;
    ParseUndoesPrint(v, utf8, 0, []);
    assert Print(v) + [] == Print(v);
  }

  /** Two different inputs are accepted as the empty string: an empty text and a byte order mark alone. */
  lemma TwoEncodingsOfNothing(utf8: Utf8)
    requires utf8([]) && utf8(BYTE_ORDER_MARK)
    ensures HandsOut([0x60], utf8, Text([])) && HandsOut([0x63, 0xef, 0xbb, 0xbf], utf8, Text([]))
  {
    hide HandsOut, Print;
    PrintedIsHandedOut(Text([]), utf8);
    PrintedIsHandedOut(Text(BYTE_ORDER_MARK), utf8);
    NothingPrinted();
  }

  lemma NothingPrinted()
    ensures Print(Text([])) == [0x60] && Print(Text(BYTE_ORDER_MARK)) == [0x63, 0xef, 0xbb, 0xbf]
  {
  }

  // ---- The parser itself ----

  /** One input and an offset that every read moves. */
  class Reader {
    const bytes: seq<Byte>
    var offset: nat

    ghost predicate Inside()
      reads this
    {
      offset <= |bytes|
    }

    constructor (bytes: seq<Byte>, start: nat)
      requires start <= |bytes|
      ensures this.bytes == bytes && offset == start
    {
      this.bytes := bytes;
      offset := start;
    }

    method Read(count: nat) returns (value: Option<seq<Byte>>)
      requires Inside()
      modifies this
      ensures Inside()
      ensures value.Some? <==> old(offset) + count <= |bytes|
      ensures value.Some? ==> offset == old(offset) + count && value.value == bytes[old(offset)..offset]
      ensures value.None? ==> offset == old(offset)
    {
      if offset + count > |bytes| {
        return None;
      }
      value := Some(bytes[offset..offset + count]);
      offset := offset + count;
    }

    /** Initial octet of an item below the simple values, then its argument. */
    method ReadHead(first: Byte) returns (head: Option<Argument>)
      requires Inside() && 0 < offset && bytes[offset - 1] == first
      modifies this
      ensures Inside()
      ensures head.Some? <==> ParseHead(bytes[old(offset) - 1..]).Some?
      ensures head.Some? ==> ParseHead(bytes[old(offset) - 1..]) == Some(Parsed(head.value, bytes[offset..]))
      ensures head.Some? ==> offset >= old(offset)
    {
      ghost var s := bytes[offset - 1..];
      var major, additional := first / 32, first % 32;
      if major > 5 || additional > 26 {
        return None;
      }
      var length := additional;
      if additional >= 24 {
        var size := Width(additional);
        var argument := Read(size);
        if argument.None? {
          return None;
        }
        length := FromBigEndian(argument.value);
        assert s[1..1 + size] == argument.value;
        if !Shortest(additional, length) {
          return None;
        }
      }
      assert s[1 + Width(additional)..] == bytes[offset..];
      return Some(Argument(major, additional, length));
    }

    /** One item at `depth`; on failure the whole parse fails and the offset means nothing. */
    method Item(utf8: Utf8, depth: nat) returns (item: Option<Value>)
      requires Inside()
      modifies this
      ensures Inside()
      ensures item.Some? <==> ParseItem(bytes[old(offset)..], utf8, depth).Some?
      ensures item.Some? ==> old(offset) < offset
                             && ParseItem(bytes[old(offset)..], utf8, depth)
                                  == Some(Parsed(item.value, bytes[offset..]))
      decreases |bytes| - offset, 1
    {
      hide ParseHead, ParseItems, ParseEntries;
      ghost var s := bytes[offset..];
      if depth > MAXIMUM_DEPTH {
        return None;
      }
      var initial := Read(1);
      if initial.None? {
        return None;
      }
      var first := initial.value[0];
      assert s[0] == first && bytes[offset - 1..] == s && s[1..] == bytes[offset..];
      if first / 32 == 7 {
        return Simple(first);
      }
      var head := ReadHead(first);
      if head.None? {
        return None;
      }
      var major, length := head.value.major, head.value.length;
      if major == 0 {
        return Some(Unsigned(length));
      }
      if major == 1 {
        return Some(Negative(length));
      }
      ghost var rest := bytes[offset..];
      if major == 2 || major == 3 {
        var octets := Read(length);
        if octets.None? {
          return None;
        }
        assert rest[..length] == octets.value && rest[length..] == bytes[offset..];
        if major == 2 {
          return Some(ByteString(octets.value));
        }
        if !utf8(octets.value) {
          return None;
        }
        return Some(Text(octets.value));
      }
      if length > MAXIMUM_ENTRIES {
        return None;
      }
      if major == 4 {
        var items := Items(length, utf8, depth + 1);
        return if items.Some? then Some(List(items.value)) else None;
      }
      var entries := Entries(length, utf8, depth + 1);
      return if entries.Some? then Some(Map(entries.value)) else None;
    }

    method Items(length: nat, utf8: Utf8, depth: nat) returns (items: Option<seq<Value>>)
      requires Inside()
      modifies this
      ensures Inside() && (items.Some? ==> old(offset) <= offset)
      ensures items.Some? <==> ParseItems(bytes[old(offset)..], length, utf8, depth).Some?
      ensures items.Some? ==>
                ParseItems(bytes[old(offset)..], length, utf8, depth) == Some(Parsed(items.value, bytes[offset..]))
      decreases |bytes| - offset, 2
    {
      hide ParseItem;
      ghost var s := bytes[offset..];
      var values: seq<Value> := [];
      for i := 0 to length
        invariant Inside() && old(offset) <= offset
        invariant ParseItems(s, i, utf8, depth) == Some(Parsed(values, bytes[offset..]))
      {
        var value := Item(utf8, depth);
        if value.None? {
          ItemsStop(s, i + 1, length, utf8, depth);
          return None;
        }
        values := values + [value.value];
      }
      return Some(values);
    }

    method Entries(length: nat, utf8: Utf8, depth: nat) returns (entries: Option<seq<Entry>>)
      requires Inside()
      modifies this
      ensures Inside() && (entries.Some? ==> old(offset) <= offset)
      ensures entries.Some? <==> ParseEntries(bytes[old(offset)..], length, utf8, depth).Some?
      ensures entries.Some? ==>
                ParseEntries(bytes[old(offset)..], length, utf8, depth) == Some(Parsed(entries.value, bytes[offset..]))
      decreases |bytes| - offset, 2
    {
      hide ParseItem, NewKey;
      ghost var s := bytes[offset..];
      var collected: seq<Entry> := [];
      for i := 0 to length
        invariant Inside() && old(offset) <= offset
        invariant ParseEntries(s, i, utf8, depth) == Some(Parsed(collected, bytes[offset..]))
      {
        var key := Item(utf8, depth);
        if key.None? || !NewKey(collected, key.value) {
          EntriesStop(s, i + 1, length, utf8, depth);
          return None;
        }
        var value := Item(utf8, depth);
        if value.None? {
          EntriesStop(s, i + 1, length, utf8, depth);
          return None;
        }
        collected := collected + [Entry(key.value, value.value)];
      }
      return Some(collected);
    }
  }

  lemma {:induction false} ItemsStop(s: seq<Byte>, n: nat, count: nat, utf8: Utf8, depth: nat)
    requires n <= count && ParseItems(s, n, utf8, depth).None?
    ensures ParseItems(s, count, utf8, depth).None?
  {
    if n < count {
      ItemsStop(s, n, count - 1, utf8, depth);
    }
  }

  lemma {:induction false} EntriesStop(s: seq<Byte>, n: nat, count: nat, utf8: Utf8, depth: nat)
    requires n <= count && ParseEntries(s, n, utf8, depth).None?
    ensures ParseEntries(s, count, utf8, depth).None?
  {
    if n < count {
      EntriesStop(s, n, count - 1, utf8, depth);
    }
  }

  /** The item at `start` and the offset behind it: exactly a printed representable value, or a failure. */
  method ParseSecurityKeyCbor(bytes: seq<Byte>, start: nat, utf8: Utf8) returns (result: Option<(Value, nat)>)
    ensures |bytes| > MAXIMUM_INPUT || start > |bytes| ==> result.None?
    ensures result.Some? ==>
              && start < result.value.1 <= |bytes|
              && Representable(result.value.0, utf8, 0) && bytes[start..result.value.1] == Print(result.value.0)
    ensures |bytes| <= MAXIMUM_INPUT && start <= |bytes| && result.None? ==>
              forall v, end :: start <= end <= |bytes| && Representable(v, utf8, 0) ==> bytes[start..end] != Print(v)
  {
    hide ParseItem, Print, Representable;
    if |bytes| > MAXIMUM_INPUT || start > |bytes| {
      return None;
    }
    var reader := new Reader(bytes, start);
    var value := reader.Item(utf8, 0);
    if value.None? {
      forall v, end | start <= end <= |bytes| && Representable(v, utf8, 0) ensures bytes[start..end] != Print(v) {
        ParseUndoesPrint(v, utf8, 0, bytes[end..]);
        assert bytes[start..] == bytes[start..end] + bytes[end..];
      }
      return None;
    }
    PrintUndoesParse(bytes[start..], utf8, 0);
    var end := reader.offset;
    assert bytes[start..] == bytes[start..end] + bytes[end..];
    assert bytes[start..end] == Print(value.value);
    return Some((value.value, end));
  }
}
