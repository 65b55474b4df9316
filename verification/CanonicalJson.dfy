/**
 `canonical_json`: objects with sorted keys and no spacing, strings escaped as section 7 of
 RFC 8259 asks. A decoder recovers every value, so the text identifies the value.
 */
module CanonicalJson {
  import opened Wrappers
  import opened Decimal
  import opened Order

  predicate IsNumberChar(c: char) {
    IsDigit(c) || c == '-' || c == '+' || c == '.' || c == 'e'
  }

  /** The text of a number that is not an integer: it has a point or an exponent. */
  predicate IsFloatText(s: string) {
    && s != "" && (s[0] == '-' || IsDigit(s[0]))
    && (forall i :: 0 <= i < |s| ==> IsNumberChar(s[i]))
    && exists i :: 0 <= i < |s| && (s[i] == '.' || s[i] == 'e')
  }

  lemma {:induction false} SomeFloat()
    ensures IsFloatText("0.5")
  {
    assert "0.5"[1] == '.';
  }

  type FloatText = s: string | IsFloatText(s) ghost witness (SomeFloat(); "0.5")

  /** A number that is not an integer is identified with the text `serde_json` prints for it. */
  datatype Value =
    | Null
    | Bool(b: bool)
    | Number(n: int)
    | Float(text: FloatText)
    | String(s: string)
    | Array(items: seq<Value>)
    | Object(fields: map<string, Value>)

  // ---------------------------------------------------------------- strings

  function HexChar(d: nat): char
    requires d < 16
  {
    if d < 10 then '0' + d as char else 'a' + (d - 10) as char
  }

  predicate IsControl(c: char) {
    c as int < 0x20
  }

  /** `serde_json`'s escape table. */
  function EscapeChar(c: char): string {
    if c == '\"' then "\\\""
    else if c == '\\' then "\\\\"
    else if c == 8 as char then "\\b"
    else if c == 9 as char then "\\t"
    else if c == 10 as char then "\\n"
    else if c == 12 as char then "\\f"
    else if c == 13 as char then "\\r"
    else if IsControl(c) then "\\u00" + [HexChar(c as int / 16), HexChar(c as int % 16)]
    else [c]
  }

  function EscapeAll(s: string): string {
    if s == "" then "" else EscapeChar(s[0]) + EscapeAll(s[1..])
  }

  /** Escapes are as short as JSON allows, and none is written where none is needed. */
  lemma {:induction false} EscapesAreShortest(c: char)
    ensures |EscapeChar(c)| ==
            if c in ['\"', '\\', 8 as char, 9 as char, 10 as char, 12 as char, 13 as char] then 2
            else if c < ' ' then 6 else 1
    ensures |EscapeChar(c)| == 6 ==> forall i :: 0 <= i < 6 ==> !('A' <= EscapeChar(c)[i] <= 'Z')
  {
  }

  function Quote(s: string): string {
    "\"" + EscapeAll(s) + "\""
  }

  // ---------------------------------------------------------------- encoding

  function Join(parts: seq<string>): string {
    if parts == [] then ""
    else if |parts| == 1 then parts[0]
    else parts[0] + "," + Join(parts[1..])
  }

  function Field(key: string, text: string): string {
    Quote(key) + ":" + text
  }

  function FieldTexts(keys: seq<string>, texts: map<string, string>): (r: seq<string>)
    requires forall i :: 0 <= i < |keys| ==> keys[i] in texts
    ensures |r| == |keys| && forall i :: 0 <= i < |keys| ==> r[i] == Field(keys[i], texts[keys[i]])
  {
    seq(|keys|, i requires 0 <= i < |keys| => Field(keys[i], texts[keys[i]]))
  }

  function Encode(v: Value): string {
    match v
    case Null => "null"
    case Bool(b) => if b then "true" else "false"
    case Number(n) => if n < 0 then "-" + Digits(-n) else Digits(n)
    case Float(text) => text
    case String(s) => Quote(s)
    case Array(items) => "[" + Join(seq(|items|, i requires 0 <= i < |items| => Encode(items[i]))) + "]"
    case Object(fields) => "{" + Join(FieldTexts(Sorted(fields.Keys), map k | k in fields :: Encode(fields[k]))) + "}"
  }

  /** `canonical_string_object`: the given fields in the given order. */
  function EncodeStringFields(fields: seq<(string, string)>): string {
    "{" + Join(seq(|fields|, i requires 0 <= i < |fields| => Field(fields[i].0, Quote(fields[i].1)))) + "}"
  }

  // ---------------------------------------------------------------- decoding

  datatype Decoded<+T> = Failed | Decoded(value: T, rest: string)

  function HexValue(c: char): (d: int)
    ensures -1 <= d < 16
  {
    if '0' <= c <= '9' then (c - '0') as int
    else if 'a' <= c <= 'f' then (c - 'a') as int + 10
    else -1
  }

  /** One possibly escaped character. */
  function DecodeChar(t: string): (r: Decoded<char>)
    ensures r.Decoded? ==> |r.rest| < |t|
  {
    if t == "" || IsControl(t[0]) then Failed
    else if t[0] != '\\' then Decoded(t[0], t[1..])
    else if |t| < 2 then Failed
    else if t[1] == '\"' then Decoded('\"', t[2..])
    else if t[1] == '\\' then Decoded('\\', t[2..])
    else if t[1] == 'b' then Decoded(8 as char, t[2..])
    else if t[1] == 't' then Decoded(9 as char, t[2..])
    else if t[1] == 'n' then Decoded(10 as char, t[2..])
    else if t[1] == 'f' then Decoded(12 as char, t[2..])
    else if t[1] == 'r' then Decoded(13 as char, t[2..])
    else if "\\u00" <= t && |t| >= 6 && HexValue(t[4]) >= 0 && HexValue(t[5]) >= 0 then
      Decoded((HexValue(t[4]) * 16 + HexValue(t[5])) as char, t[6..])
    else Failed
  }

  /** The characters up to the closing quote. */
  function DecodeChars(t: string): (r: Decoded<string>)
    ensures r.Decoded? ==> |r.rest| < |t|
    decreases |t|
  {
    if t == "" then Failed
    else if t[0] == '\"' then Decoded("", t[1..])
    else
      var c := DecodeChar(t);
      if c.Failed? then Failed
      else
        var more := DecodeChars(c.rest);
        if more.Failed? then Failed else Decoded([c.value] + more.value, more.rest)
  }

  function DecodeString(t: string): (r: Decoded<string>)
    ensures r.Decoded? ==> |r.rest| < |t|
  {
    if t == "" || t[0] != '\"' then Failed else DecodeChars(t[1..])
  }

  /** How many leading characters may belong to a number. */
  function NumberSpan(s: string): (n: nat)
    ensures n <= |s| && (n == |s| || !IsNumberChar(s[n]))
    ensures forall i :: 0 <= i < n ==> IsNumberChar(s[i])
  {
    if s != "" && IsNumberChar(s[0]) then
      var rest := NumberSpan(s[1..]);
      assert forall i :: 0 < i < 1 + rest ==> s[i] == s[1..][i - 1];
      1 + rest
    else 0
  }

  /** The value of a numeral. */
  function NumeralValue(s: string): Option<Value> {
    if IsFloatText(s) then Some(Float(s))
    else if s != "" && AllDigits(s) then Some(Number(ParseDigits(s)))
    else if |s| > 1 && s[0] == '-' && AllDigits(s[1..]) then Some(Number(-(ParseDigits(s[1..]) as int)))
    else None
  }

  function DecodeNumber(t: string): (r: Decoded<Value>)
    ensures r.Decoded? ==> |r.rest| < |t|
  {
    var n := NumberSpan(t);
    var v := NumeralValue(t[..n]);
    if n == 0 || v.None? then Failed else Decoded(v.value, t[n..])
  }

  function Decode(t: string): (r: Decoded<Value>)
    ensures r.Decoded? ==> |r.rest| < |t|
    decreases |t|, 0
  {
    if t == "" then Failed
    else if "null" <= t then Decoded(Null, t[4..])
    else if "true" <= t then Decoded(Bool(true), t[4..])
    else if "false" <= t then Decoded(Bool(false), t[5..])
    else if t[0] == '\"' then
      var s := DecodeChars(t[1..]);
      if s.Failed? then Failed else Decoded(String(s.value), s.rest)
    else if "[]" <= t then Decoded(Array([]), t[2..])
    else if t[0] == '[' then
      var items := DecodeItems(t[1..]);
      if items.Failed? then Failed else Decoded(Array(items.value), items.rest)
    else if "{}" <= t then Decoded(Object(map[]), t[2..])
    else if t[0] == '{' then
      var fields := DecodeFields(t[1..]);
      if fields.Failed? then Failed else Decoded(Object(FromEntries(fields.value)), fields.rest)
    else DecodeNumber(t)
  }

  function DecodeItems(t: string): (r: Decoded<seq<Value>>)
    ensures r.Decoded? ==> |r.rest| < |t|
    decreases |t|, 1
  {
    var v := Decode(t);
    if v.Failed? || v.rest == "" then Failed
    else if v.rest[0] == ']' then Decoded([v.value], v.rest[1..])
    else if v.rest[0] == ',' then
      var more := DecodeItems(v.rest[1..]);
      if more.Failed? then Failed else Decoded([v.value] + more.value, more.rest)
    else Failed
  }

  /** The fields in the order of the text. */
  function DecodeFields(t: string): (r: Decoded<seq<(string, Value)>>)
    ensures r.Decoded? ==> |r.rest| < |t|
    decreases |t|, 1
  {
    var k := DecodeString(t);
    if k.Failed? || k.rest == "" || k.rest[0] != ':' then Failed
    else
      var v := Decode(k.rest[1..]);
      if v.Failed? || v.rest == "" then Failed
      else if v.rest[0] == '}' then Decoded([(k.value, v.value)], v.rest[1..])
      else if v.rest[0] == ',' then
        var more := DecodeFields(v.rest[1..]);
        if more.Failed? then Failed else Decoded([(k.value, v.value)] + more.value, more.rest)
      else Failed
  }

  /** A map built by inserting entries in order: a later key overwrites an earlier one. */
  function FromEntries(entries: seq<(string, Value)>): map<string, Value> {
    if entries == [] then map[]
    else FromEntries(entries[..|entries| - 1])[entries[|entries| - 1].0 := entries[|entries| - 1].1]
  }

  // ---------------------------------------------------------------- round trip

  lemma {:induction false} EscapedChar(c: char, rest: string)
    ensures EscapeChar(c) != "" && EscapeChar(c)[0] != '\"' && !IsControl(EscapeChar(c)[0])
    ensures DecodeChar(EscapeChar(c) + rest) == Decoded(c, rest)
  {
    var t := EscapeChar(c) + rest;
    if |EscapeChar(c)| == 1 {
      assert t[1..] == rest;
    } else if |EscapeChar(c)| == 2 {
      assert t[2..] == rest;
    } else {
      var n := c as int;
      assert t[..4] == "\\u00";
      assert t[6..] == rest;
      assert HexValue(HexChar(n / 16)) == n / 16 && HexValue(HexChar(n % 16)) == n % 16;
    }
  }

  lemma {:induction false} EscapedString(s: string, rest: string)
    ensures DecodeChars(EscapeAll(s) + "\"" + rest) == Decoded(s, rest)
    decreases |s|
  {
    hide DecodeChar, EscapeChar;
    var t := EscapeAll(s) + "\"" + rest;
    if s == "" {
      assert t[0] == '\"' && t[1..] == rest;
    } else {
      var tail := EscapeAll(s[1..]) + "\"" + rest;
      EscapedChar(s[0], tail);
      assert t == EscapeChar(s[0]) + tail;
      EscapedString(s[1..], rest);
      assert t[0] == EscapeChar(s[0])[0];
      assert s == [s[0]] + s[1..];
    }
  }

  lemma {:induction false} QuotedString(s: string, rest: string)
    ensures DecodeString(Quote(s) + rest) == Decoded(s, rest)
    ensures (Quote(s) + rest)[0] == '\"' && DecodeChars((Quote(s) + rest)[1..]) == Decoded(s, rest)
  {
    hide EscapeAll, DecodeChars;
    EscapedString(s, rest);
    assert (Quote(s) + rest)[1..] == EscapeAll(s) + "\"" + rest;
  }

  /** What may follow a value: nothing that could extend a number. */
  predicate Follows(rest: string) {
    rest == "" || !IsNumberChar(rest[0])
  }

  lemma {:induction false} SpanOfNumeral(s: string, rest: string)
    requires (forall i :: 0 <= i < |s| ==> IsNumberChar(s[i])) && Follows(rest)
    ensures NumberSpan(s + rest) == |s|
  {
    hide IsNumberChar;
    var t, n := s + rest, NumberSpan(s + rest);
    assert forall i :: 0 <= i < |s| ==> IsNumberChar(t[i]);
    assert rest != "" ==> !IsNumberChar(t[|s|]);
  }

  /** The numeral of a number or float gives it back. */
  lemma {:induction false} NumeralRoundTrip(v: Value)
    requires v.Number? || v.Float?
    ensures NumeralValue(Encode(v)) == Some(v) && forall i :: 0 <= i < |Encode(v)| ==> IsNumberChar(Encode(v)[i])
  {
    hide Digits, ParseDigits;
    if v.Number? {
      var n := if v.n < 0 then -v.n else v.n;
      ParsePrinted(n);
      var s := Encode(v);
      assert v.n < 0 ==> s[1..] == Digits(n);
      assert forall i :: 0 <= i < |s| ==> IsDigit(s[i]) || s[i] == '-';
    }
  }

  lemma {:induction false} NumberRoundTrip(v: Value, rest: string)
    requires (v.Number? || v.Float?) && Follows(rest)
    ensures DecodeNumber(Encode(v) + rest) == Decoded(v, rest)
  {
    hide Encode, NumeralValue, IsNumberChar, Follows;
    var s := Encode(v);
    FirstChar(v);
    NumeralRoundTrip(v);
    SpanOfNumeral(s, rest);
    var t := s + rest;
    assert t[..|s|] == s && t[|s|..] == rest;
  }

  /** The first character tells the shapes apart and never closes a bracket. */
  lemma {:induction false} FirstChar(v: Value)
    ensures Encode(v) != ""
    ensures var c := Encode(v)[0];
            match v
            case Null => c == 'n'
            case Bool(b) => c == if b then 't' else 'f'
            case Number(n) => c == '-' || IsDigit(c)
            case Float(_) => c == '-' || IsDigit(c)
            case String(_) => c == '\"'
            case Array(_) => c == '['
            case Object(_) => c == '{'
  {
    hide Join, FieldTexts, EscapeAll, Digits;
  }

  lemma {:induction false} NumberDispatch(v: Value, rest: string)
    requires (v.Number? || v.Float?) && Follows(rest)
    ensures Decode(Encode(v) + rest) == Decoded(v, rest)
  {
    hide DecodeItems, DecodeFields, DecodeNumber, Encode;
    NumberRoundTrip(v, rest);
    FirstChar(v);
    var t := Encode(v) + rest;
    assert t[0] == Encode(v)[0];
  }

  /** The decoder undoes the encoding of `v`, whatever may follow. */
  ghost predicate Recovers(v: Value) {
    forall rest :: Follows(rest) ==> Decode(Encode(v) + rest) == Decoded(v, rest)
  }

  lemma {:induction false} UseRecovers(v: Value, rest: string)
    requires Recovers(v) && Follows(rest)
    ensures Decode(Encode(v) + rest) == Decoded(v, rest)
  {
    hide Decode, Encode;
  }

  lemma {:induction false} ItemsRoundTrip(items: seq<Value>, texts: seq<string>, rest: string)
    requires items != [] && |texts| == |items|
    requires forall i :: 0 <= i < |items| ==> texts[i] == Encode(items[i]) && Recovers(items[i])
    ensures DecodeItems(Join(texts) + "]" + rest) == Decoded(items, rest)
    decreases |items|
  {
    hide Decode, Encode, Recovers;
    var t := Join(texts) + "]" + rest;
    if |items| == 1 {
      assert t == texts[0] + ("]" + rest);
      UseRecovers(items[0], "]" + rest);
      assert ("]" + rest)[1..] == rest;
      assert items == [items[0]];
    } else {
      var more := Join(texts[1..]) + "]" + rest;
      assert t == texts[0] + ("," + more);
      UseRecovers(items[0], "," + more);
      assert ("," + more)[1..] == more;
      ItemsRoundTrip(items[1..], texts[1..], rest);
      assert items == [items[0]] + items[1..];
    }
  }

  function EntryTexts(entries: seq<(string, Value)>): (r: seq<string>)
    ensures |r| == |entries| && forall i :: 0 <= i < |entries| ==> r[i] == Field(entries[i].0, Encode(entries[i].1))
  {
    seq(|entries|, i requires 0 <= i < |entries| => Field(entries[i].0, Encode(entries[i].1)))
  }

  /** The decoder takes one field off the front and goes on after a comma. */
  lemma {:induction false} FieldStep(key: string, v: Value, tail: string)
    requires Recovers(v) && tail != "" && (tail[0] == '}' || tail[0] == ',')
    ensures DecodeFields(Quote(key) + (":" + (Encode(v) + tail))) ==
            if tail[0] == '}' then Decoded([(key, v)], tail[1..])
            else
              var more := DecodeFields(tail[1..]);
              if more.Failed? then Failed else Decoded([(key, v)] + more.value, more.rest)
  {
    hide Decode, Encode, Recovers, DecodeString, Quote;
    var after := Encode(v) + tail;
    QuotedString(key, ":" + after);
    assert (":" + after)[1..] == after;
    UseRecovers(v, tail);
  }

  lemma {:induction false} FieldsRoundTrip(entries: seq<(string, Value)>, rest: string)
    requires entries != [] && forall i :: 0 <= i < |entries| ==> Recovers(entries[i].1)
    ensures DecodeFields(Join(EntryTexts(entries)) + "}" + rest) == Decoded(entries, rest)
    decreases |entries|
  {
    hide Decode, Encode, Recovers, Quote, DecodeFields;
    var texts, key, v := EntryTexts(entries), entries[0].0, entries[0].1;
    var t := Join(texts) + "}" + rest;
    if |entries| == 1 {
      assert t == Quote(key) + (":" + (Encode(v) + ("}" + rest)));
      FieldStep(key, v, "}" + rest);
      assert ("}" + rest)[1..] == rest && entries == [(key, v)];
    } else {
      var more := Join(texts[1..]) + "}" + rest;
      assert t == Quote(key) + (":" + (Encode(v) + ("," + more)));
      FieldStep(key, v, "," + more);
      assert ("," + more)[1..] == more && texts[1..] == EntryTexts(entries[1..]);
      FieldsRoundTrip(entries[1..], rest);
      assert entries == [(key, v)] + entries[1..];
    }
  }

  // ---------------------------------------------------------------- objects and entry lists

  function EntriesOf(fields: map<string, Value>): (r: seq<(string, Value)>)
    ensures |r| == |Sorted(fields.Keys)|
    ensures forall i :: 0 <= i < |r| ==> Sorted(fields.Keys)[i] in fields && r[i] == (Sorted(fields.Keys)[i], fields[Sorted(fields.Keys)[i]])
  {
    var keys := Sorted(fields.Keys);
    assert forall i :: 0 <= i < |keys| ==> keys[i] in keys;
    seq(|keys|, i requires 0 <= i < |keys| => (keys[i], fields[keys[i]]))
  }

  ghost predicate DistinctEntries(entries: seq<(string, Value)>) {
    forall i, j :: 0 <= i < j < |entries| ==> entries[i].0 != entries[j].0
  }

  lemma {:induction false} FromDistinctEntries(entries: seq<(string, Value)>)
    requires DistinctEntries(entries)
    ensures forall k :: k in FromEntries(entries) <==> HasKey(entries, k)
    ensures forall i :: 0 <= i < |entries| ==> entries[i].0 in FromEntries(entries) && FromEntries(entries)[entries[i].0] == entries[i].1
    decreases |entries|
  {
    hide HasKey;
    if entries == [] {
      forall k ensures !HasKey(entries, k) { NoKeys(k); }
    } else {
      var rest, last := entries[..|entries| - 1], entries[|entries| - 1];
      FromDistinctEntries(rest);
      forall i | 0 <= i < |entries| ensures entries[i].0 in FromEntries(entries) && FromEntries(entries)[entries[i].0] == entries[i].1 {
        if i < |rest| {
          assert rest[i] == entries[i];
        }
      }
      forall k ensures HasKey(entries, k) <==> HasKey(rest, k) || k == last.0 { LastKey(entries, k); }
    }
  }

  predicate HasKey(entries: seq<(string, Value)>, k: string) {
    exists i :: 0 <= i < |entries| && entries[i].0 == k
  }

  lemma {:induction false} NoKeys(k: string)
    ensures !HasKey([], k)
  {
  }

  lemma {:induction false} LastKey(entries: seq<(string, Value)>, k: string)
    requires entries != []
    ensures HasKey(entries, k) <==> HasKey(entries[..|entries| - 1], k) || k == entries[|entries| - 1].0
  {
    var rest := entries[..|entries| - 1];
    assert forall i :: 0 <= i < |rest| ==> entries[i] == rest[i];
    if HasKey(rest, k) {
      var i :| 0 <= i < |rest| && rest[i].0 == k;
      assert entries[i].0 == k;
    }
  }

  lemma {:induction false} SortedEntriesDistinct(fields: map<string, Value>)
    ensures DistinctEntries(EntriesOf(fields))
  {
    hide Less;
    SortedIncreases(fields.Keys);
    var keys := Sorted(fields.Keys);
    forall i, j | 0 <= i < j < |keys| ensures keys[i] != keys[j] {
      LessTotal(keys[i], keys[j]);
    }
  }

  /** Reading back the sorted entries rebuilds the map. */
  lemma {:induction false} EntriesRebuild(fields: map<string, Value>)
    ensures FromEntries(EntriesOf(fields)) == fields
  {
    hide FromEntries, Sorted;
    var entries := EntriesOf(fields);
    SortedEntriesDistinct(fields);
    FromDistinctEntries(entries);
    forall k | k in fields ensures k in FromEntries(entries) && FromEntries(entries)[k] == fields[k] {
      assert k in Sorted(fields.Keys);
      var i :| 0 <= i < |entries| && Sorted(fields.Keys)[i] == k;
      assert entries[i].0 == k;
    }
  }

  // ---------------------------------------------------------------- the main results

  lemma {:induction false} ArrayRecovers(items: seq<Value>)
    requires forall i :: 0 <= i < |items| ==> Recovers(items[i])
    ensures Recovers(Array(items))
  {
    hide Recovers;
    forall rest | Follows(rest) ensures Decode(Encode(Array(items)) + rest) == Decoded(Array(items), rest) {
      ArrayRoundTrip(items, rest);
    }
    RecoversIntro(Array(items));
  }

  lemma {:induction false} RecoversIntro(v: Value)
    requires forall rest :: Follows(rest) ==> Decode(Encode(v) + rest) == Decoded(v, rest)
    ensures Recovers(v)
  {
  }

  lemma {:induction false} ArrayRoundTrip(items: seq<Value>, rest: string)
    requires forall i :: 0 <= i < |items| ==> Recovers(items[i])
    ensures Decode(Encode(Array(items)) + rest) == Decoded(Array(items), rest)
  {
    hide Recovers, DecodeItems, DecodeFields, DecodeNumber, Join;
    var texts := seq(|items|, i requires 0 <= i < |items| => Encode(items[i]));
    var t := "[" + Join(texts) + "]" + rest;
    assert Encode(Array(items)) + rest == t;
    if items == [] {
      JoinNone();
      assert texts == [];
      EmptyArray(rest);
      assert t == "[]" + rest;
    } else {
      ItemsRoundTrip(items, texts, rest);
      assert t[1..] == Join(texts) + "]" + rest;
      JoinHead(texts);
      FirstChar(items[0]);
      assert t[1] == Join(texts)[0];
    }
  }

  lemma {:induction false} JoinNone()
    ensures Join([]) == ""
  {
  }

  lemma {:induction false} JoinHead(parts: seq<string>)
    requires parts != [] && parts[0] != ""
    ensures Join(parts) != "" && Join(parts)[0] == parts[0][0]
  {
  }

  lemma {:induction false} EmptyArray(rest: string)
    ensures Decode("[]" + rest) == Decoded(Array([]), rest)
  {
    hide DecodeItems, DecodeFields, DecodeNumber;
    var t := "[]" + rest;
    assert t[0] == '[' && t[..2] == "[]" && t[2..] == rest;
  }

  lemma {:induction false} EmptyObject(rest: string)
    ensures Decode("{}" + rest) == Decoded(Object(map[]), rest)
  {
    hide DecodeItems, DecodeFields, DecodeNumber;
    var t := "{}" + rest;
    assert t[0] == '{' && t[..2] == "{}" && t[2..] == rest;
  }

  /** An object is written as its sorted entries. */
  lemma {:induction false} EncodeObject(fields: map<string, Value>)
    ensures Encode(Object(fields)) == "{" + Join(EntryTexts(EntriesOf(fields))) + "}"
  {
    hide Join, Sorted, Field;
    var keys := Sorted(fields.Keys);
    var texts := FieldTexts(keys, map k | k in fields :: Encode(fields[k]));
    assert texts == EntryTexts(EntriesOf(fields));
  }

  lemma {:induction false} DecodeObject(body: string)
    requires body != "" && body[0] == '\"' && DecodeFields(body).Decoded?
    ensures Decode("{" + body) == Decoded(Object(FromEntries(DecodeFields(body).value)), DecodeFields(body).rest)
  {
    hide DecodeItems, DecodeFields, DecodeNumber, FromEntries;
    var t := "{" + body;
    assert t[0] == '{' && t[1] == '\"' && t[1..] == body;
  }

  lemma {:induction false} ObjectRoundTrip(fields: map<string, Value>, rest: string)
    requires forall k :: k in fields ==> Recovers(fields[k])
    ensures Decode(Encode(Object(fields)) + rest) == Decoded(Object(fields), rest)
  {
    hide Recovers, Decode, Encode, DecodeFields, Join, FromEntries, Sorted, Field;
    var entries := EntriesOf(fields);
    EncodeObject(fields);
    EntriesRebuild(fields);
    if entries == [] {
      JoinNone();
      EmptyObject(rest);
      assert EntryTexts(entries) == [];
      assert "{" + "" + "}" + rest == "{}" + rest;
      FromNothing();
    } else {
      FieldsRoundTrip(entries, rest);
      FieldTextsNotEmpty(EntryTexts(entries), entries[0]);
      var body := Join(EntryTexts(entries)) + "}" + rest;
      assert body[0] == Join(EntryTexts(entries))[0];
      DecodeObject(body);
      assert Encode(Object(fields)) + rest == "{" + body;
    }
  }

  lemma {:induction false} FromNothing()
    ensures FromEntries([]) == map[]
  {
  }

  lemma {:induction false} FieldTextsNotEmpty(texts: seq<string>, e: (string, Value))
    requires texts != [] && texts[0] == Field(e.0, Encode(e.1))
    ensures Join(texts) != "" && Join(texts)[0] == '\"'
  {
    hide Encode, EscapeAll;
    assert texts[0][0] == '\"';
    JoinHead(texts);
  }

  /** The decoder recovers every value from its canonical text. */
  lemma {:induction false} RoundTrip(v: Value)
    ensures Recovers(v)
  {
    hide Recovers, DecodeItems, DecodeFields, DecodeNumber, Quote;
    match v
    case Array(items) =>
      forall i | 0 <= i < |items| ensures Recovers(items[i]) {
        RoundTrip(items[i]);
      }
      ArrayRecovers(items);
    case Object(fields) =>
      forall k | k in fields ensures Recovers(fields[k]) {
        RoundTrip(fields[k]);
      }
      forall rest | Follows(rest) ensures Decode(Encode(v) + rest) == Decoded(v, rest) {
        ObjectRoundTrip(fields, rest);
      }
      RecoversIntro(v);
    case _ =>
      forall rest | Follows(rest) ensures Decode(Encode(v) + rest) == Decoded(v, rest) {
        ScalarRoundTrip(v, rest);
      }
      RecoversIntro(v);
  }

  lemma {:induction false} ScalarRoundTrip(v: Value, rest: string)
    requires !v.Array? && !v.Object? && Follows(rest)
    ensures Decode(Encode(v) + rest) == Decoded(v, rest)
  {
    hide DecodeItems, DecodeFields, DecodeNumber, DecodeString, Quote, Digits;
    var t := Encode(v) + rest;
    match v
    case Null => assert t[..4] == "null" && t[4..] == rest;
    case Bool(b) =>
      if b {
        assert t[0] == 't' && t[..4] == "true" && t[4..] == rest;
      } else {
        assert t[0] == 'f' && t[..5] == "false" && t[5..] == rest;
      }
    case Number(_) => NumberDispatch(v, rest);
    case Float(_) => NumberDispatch(v, rest);
    case String(s) => QuotedString(s, rest);
  }

  /** Equal texts come from equal values. */
  lemma {:induction false} EncodeInjective(v: Value, w: Value)
    ensures Encode(v) == Encode(w) <==> v == w
  {
    hide Decode, Encode;
    RoundTrip(v);
    RoundTrip(w);
    assert Encode(v) + "" == Encode(v) && Encode(w) + "" == Encode(w);
    UseRecovers(v, "");
    UseRecovers(w, "");
  }

  // ---------------------------------------------------------------- hand-built forms

  function StringEntries(fields: seq<(string, string)>): (r: seq<(string, Value)>)
    ensures |r| == |fields| && forall i :: 0 <= i < |fields| ==> r[i] == (fields[i].0, String(fields[i].1))
  {
    seq(|fields|, i requires 0 <= i < |fields| => (fields[i].0, String(fields[i].1)))
  }

  function KeysOf<T>(fields: seq<(string, T)>): (r: seq<string>)
    ensures |r| == |fields| && forall i :: 0 <= i < |fields| ==> r[i] == fields[i].0
  {
    seq(|fields|, i requires 0 <= i < |fields| => fields[i].0)
  }

  /** The object that `json!` builds from the same fields. */
  function StringObject(fields: seq<(string, string)>): Value {
    Object(FromEntries(StringEntries(fields)))
  }

  lemma {:induction false} EncodeFieldList(fields: seq<(string, string)>)
    ensures EncodeStringFields(fields) == "{" + Join(EntryTexts(StringEntries(fields))) + "}"
  {
    hide Join, Quote;
    var s := seq(|fields|, i requires 0 <= i < |fields| => Field(fields[i].0, Quote(fields[i].1)));
    assert s == EntryTexts(StringEntries(fields));
  }

  /** The text lists its entries in order: equal texts have equal entry lists. */
  lemma {:induction false} EntryTextInjective(a: seq<(string, Value)>, b: seq<(string, Value)>)
    requires Join(EntryTexts(a)) == Join(EntryTexts(b))
    ensures a == b
  {
    hide Decode, Encode, DecodeFields, Join, Recovers, Field;
    forall i | 0 <= i < |a| ensures Recovers(a[i].1) { RoundTrip(a[i].1); }
    forall i | 0 <= i < |b| ensures Recovers(b[i].1) { RoundTrip(b[i].1); }
    JoinNone();
    if a != [] {
      FieldsRoundTrip(a, "");
      FieldTextsNotEmpty(EntryTexts(a), a[0]);
    }
    if b != [] {
      FieldsRoundTrip(b, "");
      FieldTextsNotEmpty(EntryTexts(b), b[0]);
    }
    assert a == [] ==> EntryTexts(a) == [];
    assert b == [] ==> EntryTexts(b) == [];
  }

  /**
   The hand-built text of an object with string fields is its canonical text exactly when the
   fields are given in strictly increasing key order.
   */
  lemma {:induction false} HandBuiltIsCanonical(fields: seq<(string, string)>)
    ensures EncodeStringFields(fields) == Encode(StringObject(fields)) <==> Increasing(KeysOf(fields))
  {
    hide Encode, EncodeStringFields, Join, FromEntries, Sorted, Increasing, Field;
    var entries := StringEntries(fields);
    var m := FromEntries(entries);
    EncodeFieldList(fields);
    EncodeObject(m);
    SortedIncreases(m.Keys);
    if EncodeStringFields(fields) == Encode(StringObject(fields)) {
      Unbrace(Join(EntryTexts(entries)), Join(EntryTexts(EntriesOf(m))));
      EntryTextInjective(entries, EntriesOf(m));
      assert KeysOf(fields) == Sorted(m.Keys);
    }
    if Increasing(KeysOf(fields)) {
      assert KeysOf(entries) == KeysOf(fields);
      IncreasingEntries(entries);
    }
  }

  lemma {:induction false} Unbrace(a: string, b: string)
    requires "{" + a + "}" == "{" + b + "}"
    ensures a == b
  {
    assert ("{" + a + "}")[1..|a| + 1] == a;
    assert ("{" + b + "}")[1..|b| + 1] == b;
    assert |"{" + a + "}"| == |a| + 2 && |"{" + b + "}"| == |b| + 2;
  }

  /** Entries already in key order are the entries of the object they build. */
  lemma {:induction false} IncreasingEntries(entries: seq<(string, Value)>)
    requires Increasing(KeysOf(entries))
    ensures EntriesOf(FromEntries(entries)) == entries
  {
    hide FromEntries, Sorted, Less;
    var keys := KeysOf(entries);
    forall i, j | 0 <= i < j < |entries| ensures entries[i].0 != entries[j].0 {
      LessTotal(keys[i], keys[j]);
    }
    FromDistinctEntries(entries);
    var m := FromEntries(entries);
    SortedIncreases(m.Keys);
    forall x ensures x in Sorted(m.Keys) <==> x in keys {
      if i :| 0 <= i < |entries| && entries[i].0 == x {
        assert keys[i] == x;
      }
    }
    IncreasingUnique(Sorted(m.Keys), keys);
  }

  // ---------------------------------------------------------------- insertion order and printability

  /** An object's text does not depend on the order in which its fields were inserted. */
  lemma {:induction false} InsertionOrderIrrelevant(a: seq<(string, Value)>, b: seq<(string, Value)>)
    requires DistinctEntries(a) && multiset(a) == multiset(b)
    ensures Encode(Object(FromEntries(a))) == Encode(Object(FromEntries(b)))
  {
    hide FromEntries, Encode;
    forall e ensures e in a <==> e in b {
      assert e in multiset(a) <==> e in multiset(b);
    }
    PermutedDistinct(a, b);
    FromDistinctEntries(a);
    FromDistinctEntries(b);
    var m, n := FromEntries(a), FromEntries(b);
    forall k | k in m ensures k in n && n[k] == m[k] {
      var i :| 0 <= i < |a| && a[i].0 == k;
      assert a[i] in b;
      var j :| 0 <= j < |b| && b[j] == a[i];
    }
    forall k | k in n ensures k in m {
      var j :| 0 <= j < |b| && b[j].0 == k;
      assert b[j] in a;
      var i :| 0 <= i < |a| && a[i] == b[j];
    }
    assert m == n;
  }

  lemma {:induction false} PermutedDistinct(a: seq<(string, Value)>, b: seq<(string, Value)>)
    requires DistinctEntries(a) && multiset(a) == multiset(b)
    ensures DistinctEntries(b)
  {
    forall i, j | 0 <= i < j < |b| ensures b[i].0 != b[j].0 {
      if b[i].0 == b[j].0 {
        assert b[i] in multiset(a) && b[j] in multiset(a);
        var x :| 0 <= x < |a| && a[x] == b[i];
        var y :| 0 <= y < |a| && a[y] == b[j];
        assert x == y;
        Occurrences(b, i, j);
        OccursOnce(a, x);
      }
    }
  }

  lemma {:induction false} Occurrences(b: seq<(string, Value)>, i: nat, j: nat)
    requires i < j < |b| && b[i] == b[j]
    ensures multiset(b)[b[i]] >= 2
  {
    assert b == b[..j] + b[j..];
    assert b[i] in multiset(b[..j]) by { assert b[..j][i] == b[i]; }
    assert b[j] in multiset(b[j..]) by { assert b[j..][0] == b[j]; }
  }

  lemma {:induction false} OccursOnce(a: seq<(string, Value)>, x: nat)
    requires DistinctEntries(a) && x < |a|
    ensures multiset(a)[a[x]] == 1
  {
    assert a == a[..x] + [a[x]] + a[x + 1..];
    assert a[x] !in a[..x] && a[x] !in a[x + 1..];
  }

  ghost predicate Printable(t: string) {
    forall i :: 0 <= i < |t| ==> !IsControl(t[i])
  }

  lemma {:induction false} EscapedPrintable(s: string)
    ensures Printable(EscapeAll(s))
  {
    if s != "" {
      EscapedPrintable(s[1..]);
      assert Printable(EscapeChar(s[0]));
    }
  }

  lemma {:induction false} JoinPrintable(parts: seq<string>)
    requires forall i :: 0 <= i < |parts| ==> Printable(parts[i])
    ensures Printable(Join(parts))
  {
    if |parts| > 1 {
      JoinPrintable(parts[1..]);
    }
  }

  /** Canonical text holds no control character, so a NUL can separate texts. */
  lemma {:induction false} EncodePrintable(v: Value)
    ensures Printable(Encode(v))
  {
    hide EscapeAll, Join, Digits, Sorted;
    match v
    case Null =>
    case Bool(_) =>
    case Float(_) =>
    case Number(n) =>
      assert Printable(Digits(if n < 0 then -n else n));
    case String(s) => EscapedPrintable(s);
    case Array(items) =>
      forall i | 0 <= i < |items| ensures Printable(Encode(items[i])) {
        EncodePrintable(items[i]);
      }
      ArrayPrintable(items);
    case Object(fields) =>
      forall k | k in fields ensures Printable(Encode(fields[k])) {
        EncodePrintable(fields[k]);
      }
      ObjectPrintable(fields);
  }

  lemma {:induction false} ArrayPrintable(items: seq<Value>)
    requires forall i :: 0 <= i < |items| ==> Printable(Encode(items[i]))
    ensures Printable(Encode(Array(items)))
  {
    hide Join;
    JoinPrintable(seq(|items|, i requires 0 <= i < |items| => Encode(items[i])));
  }

  lemma {:induction false} ObjectPrintable(fields: map<string, Value>)
    requires forall k :: k in fields ==> Printable(Encode(fields[k]))
    ensures Printable(Encode(Object(fields)))
  {
    hide Join, Encode, EscapeAll;
    EncodeObject(fields);
    var entries := EntriesOf(fields);
    forall i | 0 <= i < |entries| ensures Printable(EntryTexts(entries)[i]) {
      EscapedPrintable(entries[i].0);
    }
    JoinPrintable(EntryTexts(entries));
  }
}
