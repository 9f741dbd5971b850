/**
 JSON as the canonical encoding spells it (canonicalString and canonical of
 internal/pageadmission/pageadmission.go; RFC 8785 section 3.2.2), and a decoder that inverts it. Text is
 in code points, before UTF-8.
 */
module JsonText {
  import opened Sequences
  import opened Values

  // ----- strings -----

  const HEX := "0123456789abcdef"

  function Escape(c: char): (r: string)
    ensures r != []
  {
    if c == '"' then "\\\""
    else if c == '\\' then "\\\\"
    else if c == '\U{08}' then "\\b"
    else if c == '\U{0C}' then "\\f"
    else if c == '\n' then "\\n"
    else if c == '\r' then "\\r"
    else if c == '\t' then "\\t"
    else if c < ' ' then "\\u00" + [HEX[c as int / 16], HEX[c as int % 16]]
    else [c]
  }

  /** What follows the opening quote. */
  function Escaped(s: string): string {
    if s == [] then "\"" else Escape(s[0]) + Escaped(s[1..])
  }

  function Quoted(s: string): string {
    "\"" + Escaped(s)
  }

  method CanonicalString(source: string) returns (out: string)
    ensures out == Quoted(source)
  {
    out := "\"";
    for i := 0 to |source|
      invariant out + Escaped(source[i..]) == Quoted(source)
    {
      assert source[i..][0] == source[i] && source[i..][1..] == source[i + 1..];
      Assoc(out, Escape(source[i]), Escaped(source[i + 1..]));
      out := out + Escape(source[i]);
    }
    return out + "\"";
  }

  // ----- values -----

  /** Numbers are spelled in these characters, and nothing else is. */
  predicate Numeral(c: char) {
    Leading(c) || c == '+' || c == '.' || c == 'e' || c == 'E'
  }

  predicate Leading(c: char) {
    '0' <= c <= '9' || c == '-'
  }

  /** JSON proper: nothing absent, no number JSON cannot hold, numbers spelled as numbers. */
  ghost predicate Plain(v: Value) {
    match v
    case Missing => false
    case NonFinite(_) => false
    case Num(s) => s != "" && Leading(s[0]) && forall i :: 0 <= i < |s| ==> Numeral(s[i])
    case Arr(items) => forall i :: 0 <= i < |items| ==> Plain(items[i])
    case Obj(fields) => forall i :: 0 <= i < |fields| ==> Plain(fields[i].value)
    case _ => true
  }

  function Spell(v: Value): string {
    match v
    case Str(s) => Quoted(s)
    case Bool(b) => if b then "true" else "false"
    case Num(s) => s
    case Arr(items) => "[" + SpellItems(items)
    case Obj(fields) => "{" + SpellFields(fields)
    case _ => "null"
  }

  function SpellItems(items: seq<Value>): string {
    if items == [] then "]" else Spell(items[0]) + MoreItems(items[1..])
  }

  function MoreItems(items: seq<Value>): string {
    if items == [] then "]" else "," + (Spell(items[0]) + MoreItems(items[1..]))
  }

  function SpellFields(fields: seq<Field>): string {
    if fields == [] then "}" else SpellField(fields[0]) + MoreFields(fields[1..])
  }

  function MoreFields(fields: seq<Field>): string {
    if fields == [] then "}" else "," + (SpellField(fields[0]) + MoreFields(fields[1..]))
  }

  function SpellField(field: Field): string {
    Quoted(field.key) + (":" + Spell(field.value))
  }

  // ----- the decoder -----

  datatype Read<T> = Bad | Got(value: T, rest: string)

  function HexValue(c: char): nat {
    if '0' <= c <= '9' then (c - '0') as int else if 'a' <= c <= 'f' then (c - 'a') as int + 10 else 0
  }

  function ReadChar(text: string): (r: Read<char>)
    requires text != []
    ensures r.Got? ==> |r.rest| < |text|
  {
    if text[0] != '\\' then Got(text[0], text[1..])
    else if |text| < 2 then Bad
    else if text[1] == 'u' then
      if |text| < 6 then Bad else Got((HexValue(text[4]) * 16 + HexValue(text[5])) as char, text[6..])
    else
      var c := text[1];
      Got(if c == 'b' then '\U{08}' else if c == 'f' then '\U{0C}' else if c == 'n' then '\n'
          else if c == 'r' then '\r' else if c == 't' then '\t' else c, text[2..])
  }

  /** The text up to the closing quote. */
  function ReadText(text: string): (r: Read<string>)
    ensures r.Got? ==> |r.rest| < |text|
    decreases |text|
  {
    if text == [] then Bad
    else if text[0] == '"' then Got("", text[1..])
    else
      var c := ReadChar(text);
      if c.Bad? then Bad
      else
        var more := ReadText(c.rest);
        if more.Bad? then Bad else Got([c.value] + more.value, more.rest)
  }

  function ReadNumeral(text: string): (r: (string, string))
    ensures |r.1| + |r.0| == |text|
  {
    if text != [] && Numeral(text[0]) then
      var more := ReadNumeral(text[1..]);
      ([text[0]] + more.0, more.1)
    else ("", text)
  }

  function Decode(text: string): (r: Read<Value>)
    ensures r.Got? ==> |r.rest| < |text|
    decreases |text|, 1
  {
    if text == [] then Bad
    else if text[0] == '"' then
      var s := ReadText(text[1..]);
      if s.Bad? then Bad else Got(Str(s.value), s.rest)
    else if text[0] == '[' then
      var items := ReadItems(text[1..]);
      if items.Bad? then Bad else Got(Arr(items.value), items.rest)
    else if text[0] == '{' then
      var fields := ReadFields(text[1..]);
      if fields.Bad? then Bad else Got(Obj(fields.value), fields.rest)
    else if text[0] == 'n' && |text| >= 4 then Got(Null, text[4..])
    else if text[0] == 't' && |text| >= 4 then Got(Bool(true), text[4..])
    else if text[0] == 'f' && |text| >= 5 then Got(Bool(false), text[5..])
    else if Leading(text[0]) then
      var n := ReadNumeral(text);
      Got(Num(n.0), n.1)
    else Bad
  }

  function ReadItems(text: string): (r: Read<seq<Value>>)
    ensures r.Got? ==> |r.rest| < |text|
    decreases |text|, 2
  {
    if text == [] then Bad
    else if text[0] == ']' then Got([], text[1..])
    else
      var first := Decode(text);
      if first.Bad? then Bad
      else
        var more := ReadMoreItems(first.rest);
        if more.Bad? then Bad else Got([first.value] + more.value, more.rest)
  }

  function ReadMoreItems(text: string): (r: Read<seq<Value>>)
    ensures r.Got? ==> |r.rest| < |text|
    decreases |text|, 2
  {
    if text == [] then Bad
    else if text[0] == ']' then Got([], text[1..])
    else if text[0] != ',' then Bad
    else
      var next := Decode(text[1..]);
      if next.Bad? then Bad
      else
        var more := ReadMoreItems(next.rest);
        if more.Bad? then Bad else Got([next.value] + more.value, more.rest)
  }

  function ReadFields(text: string): (r: Read<seq<Field>>)
    ensures r.Got? ==> |r.rest| < |text|
    decreases |text|, 2
  {
    if text == [] then Bad
    else if text[0] == '}' then Got([], text[1..])
    else
      var first := ReadField(text);
      if first.Bad? then Bad
      else
        var more := ReadMoreFields(first.rest);
        if more.Bad? then Bad else Got([first.value] + more.value, more.rest)
  }

  function ReadMoreFields(text: string): (r: Read<seq<Field>>)
    ensures r.Got? ==> |r.rest| < |text|
    decreases |text|, 2
  {
    if text == [] then Bad
    else if text[0] == '}' then Got([], text[1..])
    else if text[0] != ',' then Bad
    else
      var next := ReadField(text[1..]);
      if next.Bad? then Bad
      else
        var more := ReadMoreFields(next.rest);
        if more.Bad? then Bad else Got([next.value] + more.value, more.rest)
  }

  function ReadField(text: string): (r: Read<Field>)
    ensures r.Got? ==> |r.rest| < |text|
    decreases |text|, 1
  {
    if text == [] || text[0] != '"' then Bad
    else
      var key := ReadText(text[1..]);
      if key.Bad? || key.rest == [] then Bad
      else
        var value := Decode(key.rest[1..]);
        if value.Bad? then Bad else Got(Field(key.value, value.value), value.rest)
  }

  // ----- what is spelled is read back -----

  lemma {:induction false} Next(c: char, body: string, rest: string)
    ensures var all := ([c] + body) + rest; all != [] && all[0] == c && all[1..] == body + rest
  {
  }

  lemma {:induction false} CharReads(c: char, rest: string)
    ensures Escape(c)[0] != '"' && (Escape(c) + rest)[0] != '"' && ReadChar(Escape(c) + rest) == Got(c, rest)
  {
    var text := Escape(c) + rest;
    if c < ' ' && Escape(c)[1] == 'u' {
      var n := c as int;
      assert text[4] == HEX[n / 16] && text[5] == HEX[n % 16];
      HexReads(n / 16);
      HexReads(n % 16);
      assert n == n / 16 * 16 + n % 16;
      assert text[6..] == rest;
    } else if |Escape(c)| == 2 {
      assert text[2..] == rest;
    } else {
      assert text[1..] == rest;
    }
  }

  lemma {:induction false} HexReads(n: nat)
    requires n < 16
    ensures HexValue(HEX[n]) == n
  {
  }

  lemma {:induction false} TextReads(s: string, rest: string)
    ensures ReadText(Escaped(s) + rest) == Got(s, rest)
  {
    if s == [] {
      assert ("\"" + rest)[1..] == rest;
    } else {
      Assoc(Escape(s[0]), Escaped(s[1..]), rest);
      CharReads(s[0], Escaped(s[1..]) + rest);
      TextReads(s[1..], rest);
      assert s == [s[0]] + s[1..];
    }
  }

  /** Text that a number cannot run into. */
  predicate Ends(rest: string) {
    rest == [] || !Numeral(rest[0])
  }

  lemma {:induction false} NumeralReads(s: string, rest: string)
    requires (forall i :: 0 <= i < |s| ==> Numeral(s[i])) && Ends(rest)
    ensures ReadNumeral(s + rest) == (s, rest)
  {
    if s == [] {
      assert s + rest == rest;
    } else {
      assert (s + rest)[1..] == s[1..] + rest;
      NumeralReads(s[1..], rest);
      assert s == [s[0]] + s[1..];
    }
  }

  /** The decoder takes off exactly what was spelled. */
  lemma {:induction false} SpelledReads(v: Value, rest: string)
    requires Plain(v) && Ends(rest)
    ensures Spell(v) != [] && Decode(Spell(v) + rest) == Got(v, rest)
    decreases v, 1, 0
  {
    match v
    case Arr(items) =>
      Next('[', SpellItems(items), rest);
      ItemsRead(items, rest);
    case Obj(fields) =>
      Next('{', SpellFields(fields), rest);
      FieldsRead(fields, rest);
    case Str(s) =>
      Next('"', Escaped(s), rest);
      TextReads(s, rest);
    case Num(s) => NumberReads(s, rest);
    case _ => WordReads(v, rest);
  }

  lemma {:induction false} NumberReads(s: string, rest: string)
    requires Plain(Num(s)) && Ends(rest)
    ensures Decode(s + rest) == Got(Num(s), rest)
  {
    NumeralReads(s, rest);
    assert (s + rest)[0] == s[0];
  }

  lemma {:induction false} WordReads(v: Value, rest: string)
    requires v.Null? || v.Bool?
    ensures Decode(Spell(v) + rest) == Got(v, rest)
  {
    var word := Spell(v);
    assert (word + rest)[0] == word[0] && (word + rest)[|word|..] == rest;
  }

  lemma {:induction false} ItemsRead(items: seq<Value>, rest: string)
    requires forall i :: 0 <= i < |items| ==> Plain(items[i])
    ensures ReadItems(SpellItems(items) + rest) == Got(items, rest)
    decreases items, 0, 1
  {
    if items == [] {
      Next(']', [], rest);
    } else {
      var first, more := items[0], MoreItems(items[1..]);
      Assoc(Spell(first), more, rest);
      MoreEnds(items[1..], rest);
      SpelledReads(first, more + rest);
      NoBracket(first, more + rest);
      MoreItemsRead(items[1..], rest);
      assert items == [first] + items[1..];
    }
  }

  lemma {:induction false} MoreEnds(items: seq<Value>, rest: string)
    ensures Ends(MoreItems(items) + rest)
  {
  }

  lemma {:induction false} MoreFieldsEnd(fields: seq<Field>, rest: string)
    ensures Ends(MoreFields(fields) + rest)
  {
  }

  /** A value does not begin as the end of an array does. */
  lemma {:induction false} NoBracket(v: Value, rest: string)
    requires Plain(v)
    ensures var text := Spell(v) + rest; text != [] && text[0] != ']'
  {
  }

  lemma {:induction false} MoreItemsRead(items: seq<Value>, rest: string)
    requires forall i :: 0 <= i < |items| ==> Plain(items[i])
    ensures ReadMoreItems(MoreItems(items) + rest) == Got(items, rest)
    decreases items, 0, 0
  {
    if items == [] {
      Next(']', [], rest);
    } else {
      var first, more := items[0], MoreItems(items[1..]);
      Next(',', Spell(first) + more, rest);
      Assoc(Spell(first), more, rest);
      MoreEnds(items[1..], rest);
      SpelledReads(first, more + rest);
      MoreItemsRead(items[1..], rest);
      assert items == [first] + items[1..];
    }
  }

  lemma {:induction false} FieldsRead(fields: seq<Field>, rest: string)
    requires forall i :: 0 <= i < |fields| ==> Plain(fields[i].value)
    ensures ReadFields(SpellFields(fields) + rest) == Got(fields, rest)
    decreases fields, 0, 1
  {
    if fields == [] {
      Next('}', [], rest);
    } else {
      var first, more := fields[0], MoreFields(fields[1..]);
      Assoc(SpellField(first), more, rest);
      MoreFieldsEnd(fields[1..], rest);
      FieldReads(first, more + rest);
      MoreFieldsRead(fields[1..], rest);
      assert fields == [first] + fields[1..];
    }
  }

  lemma {:induction false} MoreFieldsRead(fields: seq<Field>, rest: string)
    requires forall i :: 0 <= i < |fields| ==> Plain(fields[i].value)
    ensures ReadMoreFields(MoreFields(fields) + rest) == Got(fields, rest)
    decreases fields, 0, 0
  {
    if fields == [] {
      Next('}', [], rest);
    } else {
      var first, more := fields[0], MoreFields(fields[1..]);
      Next(',', SpellField(first) + more, rest);
      Assoc(SpellField(first), more, rest);
      MoreFieldsEnd(fields[1..], rest);
      FieldReads(first, more + rest);
      MoreFieldsRead(fields[1..], rest);
      assert fields == [first] + fields[1..];
    }
  }

  lemma {:induction false} FieldReads(field: Field, rest: string)
    requires Plain(field.value) && Ends(rest)
    ensures var text := SpellField(field) + rest; text != [] && text[0] == '"' && ReadField(text) == Got(field, rest)
    decreases field, 0, 0
  {
    var tail := ":" + Spell(field.value);
    Next('"', Escaped(field.key) + tail, rest);
    assert SpellField(field) == "\"" + (Escaped(field.key) + tail) by {
      Assoc("\"", Escaped(field.key), tail);
    }
    Assoc(Escaped(field.key), tail, rest);
    TextReads(field.key, tail + rest);
    Next(':', Spell(field.value), rest);
    SpelledReads(field.value, rest);
  }

  /** Two values are spelled alike only when they are one. */
  lemma {:induction false} SpellInjective(v: Value, w: Value)
    requires Plain(v) && Plain(w) && Spell(v) == Spell(w)
    ensures v == w
  {
    SpelledReads(v, "");
    SpelledReads(w, "");
    assert Spell(v) + "" == Spell(v);
  }
}
