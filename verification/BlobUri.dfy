/** Blob locators: percent-encoded fields of a `lance-blob` URI (sections 2.1 and 2.3 of RFC 3986). */
module BlobUri {
  import opened Bytes
  import opened Decimals
  import Utf8

  const MAX_BLOB_URI: nat := 64 * 1024
  const MAX_BLOB_DATASET: nat := 16 * 1024
  const MAX_BLOB_COLUMN: nat := 4 * 1024
  const MAX_U64: nat := 0xFFFF_FFFF_FFFF_FFFF
  const PERCENT: byte := 0x25
  const AMPERSAND: byte := 0x26
  const EQUALS: byte := 0x3D

  // Percent-encoding of values.

  predicate Unreserved(b: byte) {
    0x61 <= b <= 0x7A || 0x41 <= b <= 0x5A || 0x30 <= b <= 0x39 || b == 0x2D || b == 0x2E || b == 0x5F || b == 0x7E
  }

  function HexChar(n: byte): byte
    requires n < 16
  {
    if n < 10 then 0x30 + n else 0x41 + (n - 10)
  }

  function HexDigit(c: byte): Option<byte> {
    if 0x30 <= c <= 0x39 then Some(c - 0x30)
    else if 0x61 <= c <= 0x66 then Some(c - 0x61 + 10)
    else if 0x41 <= c <= 0x46 then Some(c - 0x41 + 10)
    else None
  }

  function EncodeByte(b: byte): (r: Text)
    ensures 1 <= |r| <= 3
  {
    if Unreserved(b) then [b] else [PERCENT, HexChar(b / 16), HexChar(b % 16)]
  }

  function Encoded(value: Text): (r: Text)
    ensures |r| <= 3 * |value|
  {
    if value == [] then [] else EncodeByte(value[0]) + Encoded(value[1..])
  }

  /** Percent-decoding without the checks on the result. */
  function Unescaped(s: Text): Option<Text>
    decreases |s|
  {
    if s == [] then Some([])
    else if s[0] == PERCENT then
      if |s| < 3 then None
      else
        var high :- HexDigit(s[1]);
        var low :- HexDigit(s[2]);
        var rest :- Unescaped(s[3..]);
        Some([16 * high + low] + rest)
    else if !Unreserved(s[0]) then None
    else
      var rest :- Unescaped(s[1..]);
      Some([s[0]] + rest)
  }

  /** Decoding rejects NUL bytes and text that is not UTF-8. */
  function Decoded(s: Text): Option<Text> {
    var value :- Unescaped(s);
    if 0 in value || !Utf8.Valid(value) then None else Some(value)
  }

  method EncodeValue(value: Text) returns (r: Text)
    ensures r == Encoded(value)
  {
    r := [];
    for i := 0 to |value|
      invariant r + Encoded(value[i..]) == Encoded(value)
    {
      EncodedStep(value, i, r);
      if Unreserved(value[i]) {
        r := r + [value[i]];
      } else {
        r := r + [PERCENT, HexChar(value[i] / 16), HexChar(value[i] % 16)];
      }
    }
    assert value[|value|..] == [];
  }

  lemma EncodedStep(value: Text, i: nat, r: Text)
    requires i < |value|
    ensures r + Encoded(value[i..]) == r + EncodeByte(value[i]) + Encoded(value[i + 1..])
  {
    assert value[i..][0] == value[i] && value[i..][1..] == value[i + 1..];
  }

  function Prepend(done: Text, rest: Option<Text>): Option<Text> {
    if rest.None? then None else Some(done + rest.value)
  }

  /** The loop rejects a NUL byte as soon as it appears. */
  method DecodeValue(s: Text) returns (r: Option<Text>)
    ensures r == Decoded(s)
  {
    var value, index := [], 0;
    assert s[0..] == s;
    PrependNothing(Unescaped(s));
    while index < |s|
      invariant index <= |s| && 0 !in value && Unescaped(s) == Prepend(value, Unescaped(s[index..]))
      decreases |s| - index
    {
      ghost var rest := s[index..];
      var b := s[index];
      if b == PERCENT {
        if |s| - index < 3 {
          return None;
        }
        assert rest[1] == s[index + 1] && rest[2] == s[index + 2] && rest[3..] == s[index + 3..];
        var high, low := HexDigit(s[index + 1]), HexDigit(s[index + 2]);
        if high.None? || low.None? {
          return None;
        }
        b := 16 * high.value + low.value;
        index := index + 2;
      } else {
        assert rest[1..] == s[index + 1..];
        if !Unreserved(b) {
          return None;
        }
      }
      PrependStep(value, b, Unescaped(s[index + 1..]));
      if b == 0 {
        return None;
      }
      value := value + [b];
      index := index + 1;
    }
    assert s[index..] == [] && value + [] == value;
    if !Utf8.Valid(value) {
      return None;
    }
    return Some(value);
  }

  lemma PrependNothing(rest: Option<Text>)
    ensures Prepend([], rest) == rest
  {
    if rest.Some? {
      assert [] + rest.value == rest.value;
    }
  }

  lemma PrependStep(done: Text, b: byte, rest: Option<Text>)
    ensures Prepend(done, Prepend([b], rest)) == Prepend(done + [b], rest)
    ensures rest.Some? ==> b in done + ([b] + rest.value)
  {
    if rest.Some? {
      assert done + ([b] + rest.value) == done + [b] + rest.value;
    }
  }

  lemma HexRoundTrip(b: byte)
    ensures HexDigit(HexChar(b / 16)) == Some(b / 16) && HexDigit(HexChar(b % 16)) == Some(b % 16)
    ensures 16 * (b / 16) + b % 16 == b
  {
  }

  lemma {:induction false} UnescapeEncoded(value: Text)
    ensures Unescaped(Encoded(value)) == Some(value)
  {
    if value != [] {
      var b, rest := value[0], Encoded(value[1..]);
      UnescapeEncoded(value[1..]);
      HexRoundTrip(b);
      var s := EncodeByte(b) + rest;
      if Unreserved(b) {
        assert s[1..] == rest;
      } else {
        assert s[3..] == rest && s[1] == HexChar(b / 16) && s[2] == HexChar(b % 16);
      }
      assert [b] + value[1..] == value;
    }
  }

  /** Decoding inverts encoding exactly for UTF-8 values without NUL. */
  lemma DecodeEncoded(value: Text)
    ensures Decoded(Encoded(value)) == if 0 in value || !Utf8.Valid(value) then None else Some(value)
  {
    UnescapeEncoded(value);
  }

  // Numbers.

  function Parsed(s: Text): Option<nat> {
    if s != [] && AllDigits(s) && Value(s) <= MAX_U64 then Some(Value(s)) else None
  }

  /** Accepts exactly the non-empty digit strings below 2^64, and yields their value. */
  method ParseUnsigned(s: Text) returns (r: Option<nat>)
    ensures r == Parsed(s)
  {
    if s == [] {
      return None;
    }
    var result: nat := 0;
    for i := 0 to |s|
      invariant AllDigits(s[..i]) && result == Value(s[..i]) && result <= MAX_U64
    {
      assert s[..i + 1][..i] == s[..i];
      ValueGrows(s, i + 1);
      if !IsDigit(s[i]) {
        return None;
      }
      var digit := (s[i] - 0x30) as nat;
      if result > (MAX_U64 - digit) / 10 {
        return None;
      }
      result := 10 * result + digit;
    }
    assert s[..|s|] == s;
    return Some(result);
  }

  lemma ParsePrinted(n: nat)
    requires n <= MAX_U64
    ensures Parsed(Printed(n)) == Some(n)
  {
    ValuePrinted(n);
  }

  // Fields.

  /** Pieces between ampersands, read until the input is exhausted. */
  function Split(s: Text): seq<Text>
    decreases |s|
  {
    if s == [] then []
    else
      var i := Find(s, AMPERSAND);
      if i == |s| then [s] else [s[..i]] + Split(s[i + 1..])
  }

  predicate DoubleAmpersand(s: Text) {
    |s| >= 2 && ((s[0] == AMPERSAND && s[1] == AMPERSAND) || DoubleAmpersand(s[1..]))
  }

  predicate Separated(query: Text) {
    query != [] && query[0] != AMPERSAND && query[|query| - 1] != AMPERSAND && !DoubleAmpersand(query)
  }

  /** Adds `key=value` items to a map; an item without `=` or a repeated key is an error. */
  function AddFields(items: seq<Text>, fields: map<Text, Text>): Option<map<Text, Text>>
    decreases |items|
  {
    if items == [] then Some(fields)
    else
      var i := Find(items[0], EQUALS);
      if i == |items[0]| || items[0][..i] in fields then None
      else AddFields(items[1..], fields[items[0][..i] := items[0][i + 1..]])
  }

  method ParseFields(items: seq<Text>) returns (r: Option<map<Text, Text>>)
    ensures r == AddFields(items, map[])
  {
    var fields: map<Text, Text> := map[];
    assert items[0..] == items;
    for n := 0 to |items|
      invariant AddFields(items, map[]) == AddFields(items[n..], fields)
    {
      assert items[n..][0] == items[n] && items[n..][1..] == items[n + 1..];
      var i := Find(items[n], EQUALS);
      if i == |items[n]| || items[n][..i] in fields {
        return None;
      }
      fields := fields[items[n][..i] := items[n][i + 1..]];
    }
    assert items[|items|..] == [];
    return Some(fields);
  }

  // Locators.

  // "lance-blob://v1/?"
  const PREFIX: Text :=
    [0x6C, 0x61, 0x6E, 0x63, 0x65, 0x2D, 0x62, 0x6C, 0x6F, 0x62, 0x3A, 0x2F, 0x2F, 0x76, 0x31, 0x2F, 0x3F]
  const SCHEME: Text := [0x3A, 0x2F, 0x2F] // "://"
  const DATASET: Text := [0x64, 0x61, 0x74, 0x61, 0x73, 0x65, 0x74] // "dataset"
  const VERSION: Text := [0x76, 0x65, 0x72, 0x73, 0x69, 0x6F, 0x6E] // "version"
  const SNAPSHOT: Text := [0x73, 0x6E, 0x61, 0x70, 0x73, 0x68, 0x6F, 0x74] // "snapshot"
  const COLUMN: Text := [0x63, 0x6F, 0x6C, 0x75, 0x6D, 0x6E] // "column"
  const ROWID: Text := [0x72, 0x6F, 0x77, 0x69, 0x64] // "rowid"

  datatype Locator = Locator(dataset: Text, version: nat, snapshot: Text, column: Text, rowId: nat)

  predicate LowerHex(s: Text) {
    forall i | 0 <= i < |s| :: 0x30 <= s[i] <= 0x39 || 0x61 <= s[i] <= 0x66
  }

  predicate Clean(s: Text) {
    0 !in s && Utf8.Valid(s)
  }

  predicate ValidLocator(u: Locator) {
    && 0 < |u.dataset| <= MAX_BLOB_DATASET && 0 < |u.column| <= MAX_BLOB_COLUMN && u.version != 0
    && |u.snapshot| == 64 && LowerHex(u.snapshot) && Clean(u.dataset) && Clean(u.column)
  }

  predicate HasScheme(dataset: Text) {
    |dataset| >= 3 && (dataset[..3] == SCHEME || HasScheme(dataset[1..]))
  }

  function Item(key: Text, value: Text): Text {
    key + [EQUALS] + value
  }

  function Join(items: seq<Text>): Text {
    if items == [] then [] else if |items| == 1 then items[0] else items[0] + [AMPERSAND] + Join(items[1..])
  }

  function Items(u: Locator): seq<Text> {
    [Item(DATASET, Encoded(u.dataset)), Item(VERSION, Printed(u.version)), Item(SNAPSHOT, u.snapshot),
     Item(COLUMN, Encoded(u.column)), Item(ROWID, Printed(u.rowId))]
  }

  /** Everything up to the row id, which is appended per row. */
  function UriPrefix(u: Locator): Text {
    PREFIX + Join(Items(u)[..4]) + [AMPERSAND] + ROWID + [EQUALS]
  }

  /** A valid locator is encoded unless its prefix and twenty digits exceed the limit. */
  function EncodeUri(u: Locator): Option<Text> {
    if !ValidLocator(u) || |UriPrefix(u)| + 20 > MAX_BLOB_URI then None else Some(UriPrefix(u) + Printed(u.rowId))
  }

  function ParseUri(path: Text, normalize: Text -> Text): Option<Locator> {
    if |path| > MAX_BLOB_URI || !(PREFIX <= path) then None
    else
      var query := path[|PREFIX|..];
      if !Separated(query) then None
      else
        var fields :- AddFields(Split(query), map[]);
        if fields.Keys != {DATASET, VERSION, SNAPSHOT, COLUMN, ROWID} then None
        else
          var dataset :- Decoded(fields[DATASET]);
          var column :- Decoded(fields[COLUMN]);
          var version :- Parsed(fields[VERSION]);
          var rowId :- Parsed(fields[ROWID]);
          var u := Locator(dataset, version, fields[SNAPSHOT], column, rowId);
          if !ValidLocator(u) || !HasScheme(dataset) then None else Some(u.(dataset := normalize(dataset)))
  }

  // Parsing inverts encoding.

  lemma {:induction false} EncodedSafe(value: Text)
    ensures AMPERSAND !in Encoded(value)
  {
    if value != [] {
      EncodedSafe(value[1..]);
      assert AMPERSAND !in EncodeByte(value[0]);
    }
  }

  predicate Plain(items: seq<Text>) {
    forall i | 0 <= i < |items| :: items[i] != [] && AMPERSAND !in items[i]
  }

  lemma {:induction false} SplitJoin(items: seq<Text>)
    requires Plain(items)
    ensures Split(Join(items)) == items
    decreases |items|
  {
    if |items| == 1 {
      FindNone(items[0], AMPERSAND);
    } else if items != [] {
      SplitJoin(items[1..]);
      SplitHead(items[0], Join(items[1..]));
      assert items == [items[0]] + items[1..];
    }
  }

  lemma SplitHead(item: Text, rest: Text)
    requires AMPERSAND !in item
    ensures Split(item + [AMPERSAND] + rest) == [item] + Split(rest)
  {
    FindAfter(item, AMPERSAND, rest);
    var all := item + [AMPERSAND] + rest;
    assert all[..|item|] == item && all[|item| + 1..] == rest;
  }

  lemma {:induction false} NoDoubleBefore(s: Text, rest: Text)
    requires AMPERSAND !in s && s != [] && !DoubleAmpersand(rest) && (rest != [] ==> rest[0] != AMPERSAND)
    ensures !DoubleAmpersand(s + rest) && !DoubleAmpersand(s + [AMPERSAND] + rest)
    decreases |s|
  {
    var a, b := s + rest, s + [AMPERSAND] + rest;
    if |s| == 1 {
      assert a[1..] == rest && b[1..] == [AMPERSAND] + rest;
      assert ([AMPERSAND] + rest)[1..] == rest;
    } else {
      assert a[1..] == s[1..] + rest && b[1..] == s[1..] + [AMPERSAND] + rest;
      NoDoubleBefore(s[1..], rest);
    }
  }

  lemma {:induction false} JoinSeparated(items: seq<Text>)
    requires Plain(items) && items != []
    ensures Separated(Join(items))
    decreases |items|
  {
    if |items| == 1 {
      assert items[0] + [] == items[0];
      NoDoubleBefore(items[0], []);
    } else {
      JoinSeparated(items[1..]);
      NoDoubleBefore(items[0], Join(items[1..]));
    }
  }

  lemma {:induction false} DigitsSafe(s: Text)
    requires AllDigits(s)
    ensures AMPERSAND !in s
  {
  }

  lemma HexSafe(s: Text)
    requires LowerHex(s)
    ensures AMPERSAND !in s
  {
  }

  lemma ItemsPlain(u: Locator)
    requires ValidLocator(u)
    ensures Plain(Items(u))
  {
    EncodedSafe(u.dataset);
    EncodedSafe(u.column);
    DigitsSafe(Printed(u.version));
    DigitsSafe(Printed(u.rowId));
    HexSafe(u.snapshot);
    assert AMPERSAND !in DATASET && AMPERSAND !in VERSION && AMPERSAND !in SNAPSHOT && AMPERSAND !in COLUMN
      && AMPERSAND !in ROWID;
  }

  lemma AddItem(key: Text, value: Text, items: seq<Text>, fields: map<Text, Text>)
    requires EQUALS !in key && key !in fields
    ensures AddFields([Item(key, value)] + items, fields) == AddFields(items, fields[key := value])
  {
    var item := Item(key, value);
    FindAfter(key, EQUALS, value);
    assert item[..|key|] == key && item[|key| + 1..] == value;
    assert ([item] + items)[1..] == items;
  }

  lemma KeysDiffer()
    ensures DATASET != VERSION && DATASET != SNAPSHOT && DATASET != COLUMN && DATASET != ROWID
    ensures VERSION != SNAPSHOT && VERSION != COLUMN && VERSION != ROWID
    ensures SNAPSHOT != COLUMN && SNAPSHOT != ROWID && COLUMN != ROWID
    ensures EQUALS !in DATASET && EQUALS !in VERSION && EQUALS !in SNAPSHOT && EQUALS !in COLUMN && EQUALS !in ROWID
  {
    assert DATASET[0] == 0x64 && VERSION[0] == 0x76 && SNAPSHOT[0] == 0x73 && COLUMN[0] == 0x63 && ROWID[0] == 0x72;
  }

  function FieldsOf(u: Locator): map<Text, Text> {
    map[DATASET := Encoded(u.dataset)][VERSION := Printed(u.version)][SNAPSHOT := u.snapshot]
       [COLUMN := Encoded(u.column)][ROWID := Printed(u.rowId)]
  }

  lemma FieldsRead(u: Locator)
    ensures AddFields(Items(u), map[]) == Some(FieldsOf(u))
  {
    KeysDiffer();
    var xs := Items(u);
    var m1 := map[DATASET := Encoded(u.dataset)];
    var m2 := m1[VERSION := Printed(u.version)];
    var m3 := m2[SNAPSHOT := u.snapshot];
    var m4 := m3[COLUMN := Encoded(u.column)];
    assert xs == [xs[0]] + xs[1..] && xs[1..] == [xs[1]] + xs[2..] && xs[2..] == [xs[2]] + xs[3..]
      && xs[3..] == [xs[3]] + xs[4..];
    assert xs[4..] == [xs[4]] + [];
    AddItem(DATASET, Encoded(u.dataset), xs[1..], map[]);
    AddItem(VERSION, Printed(u.version), xs[2..], m1);
    AddItem(SNAPSHOT, u.snapshot, xs[3..], m2);
    AddItem(COLUMN, Encoded(u.column), xs[4..], m3);
    AddItem(ROWID, Printed(u.rowId), [], m4);
  }

  lemma FieldValues(u: Locator)
    ensures FieldsOf(u).Keys == {DATASET, VERSION, SNAPSHOT, COLUMN, ROWID}
    ensures FieldsOf(u)[DATASET] == Encoded(u.dataset) && FieldsOf(u)[VERSION] == Printed(u.version)
        && FieldsOf(u)[SNAPSHOT] == u.snapshot
    ensures FieldsOf(u)[COLUMN] == Encoded(u.column) && FieldsOf(u)[ROWID] == Printed(u.rowId)
  {
    KeysDiffer();
  }

  lemma WholeUri(u: Locator)
    ensures UriPrefix(u) + Printed(u.rowId) == PREFIX + Join(Items(u))
  {
    var xs := Items(u);
    JoinLast(xs);
    assert xs[4] == ROWID + [EQUALS] + Printed(u.rowId);
  }

  lemma {:induction false} JoinLast(items: seq<Text>)
    requires |items| >= 2
    ensures Join(items) == Join(items[..|items| - 1]) + [AMPERSAND] + items[|items| - 1]
    decreases |items|
  {
    var init := items[..|items| - 1];
    if |items| == 2 {
      assert items[1..] == [items[1]] && init == [items[0]];
    } else {
      JoinLast(items[1..]);
      assert items[1..][..|items| - 2] == init[1..];
    }
  }

  lemma U64Digits(n: nat)
    requires n <= MAX_U64
    ensures |Printed(n)| <= 20
  {
    assert Pow10(5) == 100000;
    assert Pow10(10) == 10000000000;
    assert Pow10(15) == 1000000000000000;
    assert Pow10(20) == 100000000000000000000;
    PrintedLength(n, 20);
  }

  /** The field limits keep every valid locator's prefix below the size limit: the check never fires. */
  lemma SizeCheckNeverFires(u: Locator)
    requires ValidLocator(u) && u.version <= MAX_U64
    ensures |UriPrefix(u)| + 20 <= 61603 < MAX_BLOB_URI
    ensures EncodeUri(u).Some?
  {
    U64Digits(u.version);
    var xs := Items(u)[..4];
    assert |xs[0]| <= 8 + 3 * MAX_BLOB_DATASET && |xs[1]| <= 28 && |xs[2]| == 73 && |xs[3]| <= 7 + 3 * MAX_BLOB_COLUMN;
    JoinFour(xs);
  }

  lemma JoinFour(items: seq<Text>)
    requires |items| == 4
    ensures |Join(items)| == |items[0]| + |items[1]| + |items[2]| + |items[3]| + 3
  {
    assert items[1..][1..][1..] == [items[3]];
    assert Join(items[1..][1..][1..]) == items[3];
    assert Join(items[1..][1..]) == items[2] + [AMPERSAND] + items[3];
    assert Join(items[1..]) == items[1] + [AMPERSAND] + Join(items[1..][1..]);
  }

  /** A valid locator is parsed back, with its dataset normalized, exactly when the dataset has a scheme; one that is
      already normalized comes back unchanged. */
  lemma ParseInvertsEncode(u: Locator, normalize: Text -> Text)
    requires ValidLocator(u) && u.version <= MAX_U64 && u.rowId <= MAX_U64
    ensures EncodeUri(u).Some?
    ensures ParseUri(EncodeUri(u).value, normalize) == if HasScheme(u.dataset)
        then Some(u.(dataset := normalize(u.dataset))) else None
    ensures HasScheme(u.dataset) && normalize(u.dataset) == u.dataset
        ==> ParseUri(EncodeUri(u).value, normalize) == Some(u)
  {
    SizeCheckNeverFires(u);
    U64Digits(u.rowId);
    WholeUri(u);
    var query, path := Join(Items(u)), EncodeUri(u).value;
    assert path[|PREFIX|..] == query;
    ItemsPlain(u);
    JoinSeparated(Items(u));
    SplitJoin(Items(u));
    FieldsRead(u);
    FieldValues(u);
    DecodeEncoded(u.dataset);
    DecodeEncoded(u.column);
    ParsePrinted(u.version);
    ParsePrinted(u.rowId);
  }
}
