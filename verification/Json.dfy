/** The text json.dumps writes with its default separators and ASCII escaping, and a reader of such text.
    An object is listed in key order, which is the order sort_keys writes; a number is kept as its
    literal. */
module Json {
  import opened Base

  datatype Value =
    | Null
    | Bool(b: bool)
    | Num(literal: string)
    | Str(s: string)
    | Arr(items: Items)
    | Obj(fields: Fields)

  datatype Items = NoItems | Item(head: Value, tail: Items)

  datatype Fields = NoFields | Field(key: string, value: Value, rest: Fields)

  // ---------------------------------------------------------------------------------------------
  // Writing.
  // ---------------------------------------------------------------------------------------------

  function HexDigit(n: int): char
    requires 0 <= n < 16
  {
    if n < 10 then (48 + n) as char else (87 + n) as char
  }

  /** A UTF-16 code unit as backslash, u and four hexadecimal digits. */
  function UnitEscape(n: int): string
    requires 0 <= n < 0x10000
  {
    ['\\', 'u', HexDigit(n / 16 / 16 / 16), HexDigit(n / 16 / 16 % 16), HexDigit(n / 16 % 16), HexDigit(n % 16)]
  }

  function CharText(c: char): (text: string)
    ensures text != "" && text[0] != '\"'
  {
    var n := c as int;
    if c == '\"' then ['\\', '\"']
    else if c == '\\' then ['\\', '\\']
    else if c == '\n' then ['\\', 'n']
    else if c == '\r' then ['\\', 'r']
    else if c == '\t' then ['\\', 't']
    else if n == 8 then ['\\', 'b']
    else if n == 12 then ['\\', 'f']
    else if ' ' <= c <= '~' then [c]
    else if n < 0x10000 then UnitEscape(n)
    else UnitEscape(0xD800 + (n - 0x10000) / 1024) + UnitEscape(0xDC00 + (n - 0x10000) % 1024)
  }

  /** The characters of a string and its closing quote. */
  function StringTail(s: string): string {
    if s == "" then "\"" else CharText(s[0]) + StringTail(s[1..])
  }

  function Text(v: Value): string
    decreases v, 0
  {
    match v
    case Null => "null"
    case Bool(b) => if b then "true" else "false"
    case Num(literal) => literal
    case Str(s) => "\"" + StringTail(s)
    case Arr(items) => "[" + ItemsTail(items)
    case Obj(fields) => "{" + FieldsTail(fields)
  }

  function ItemsTail(items: Items): string
    decreases items, 0
  {
    match items
    case NoItems => "]"
    case Item(head, tail) => Text(head) + MoreItems(tail)
  }

  function MoreItems(items: Items): string
    decreases items, 1
  {
    if items.NoItems? then "]" else ", " + ItemsTail(items)
  }

  function FieldsTail(fields: Fields): string
    decreases fields, 0
  {
    match fields
    case NoFields => "}"
    case Field(key, value, rest) =>
      "\"" + (StringTail(key) + (": " + (Text(value) + MoreFields(rest))))
  }

  function MoreFields(fields: Fields): string
    decreases fields, 1
  {
    if fields.NoFields? then "}" else ", " + FieldsTail(fields)
  }

  // ---------------------------------------------------------------------------------------------
  // Proper values.
  // ---------------------------------------------------------------------------------------------

  predicate NumberChar(c: char) { '0' <= c <= '9' || c == '-' || c == '+' || c == '.' || c == 'e' }

  predicate Digit(c: char) { '0' <= c <= '9' }

  predicate FiniteLiteral(literal: string) {
    && literal != ""
    && (Digit(literal[0]) || (literal[0] == '-' && |literal| >= 2 && Digit(literal[1])))
    && forall c :: c in literal ==> NumberChar(c)
  }

  predicate NonFiniteLiteral(literal: string) { literal == "NaN" || literal == "Infinity" || literal == "-Infinity" }

  /** Every number literal is one json.dumps writes. */
  predicate Proper(v: Value) {
    match v
    case Num(literal) => FiniteLiteral(literal) || NonFiniteLiteral(literal)
    case Arr(items) => ProperItems(items)
    case Obj(fields) => ProperFields(fields)
    case _ => true
  }

  predicate ProperItems(items: Items) { items.Item? ==> Proper(items.head) && ProperItems(items.tail) }

  predicate ProperFields(fields: Fields) { fields.Field? ==> Proper(fields.value) && ProperFields(fields.rest) }

  /** What follows a value never continues a number. */
  predicate Ends(rest: string) { rest == "" || !NumberChar(rest[0]) }

  // ---------------------------------------------------------------------------------------------
  // Reading: RFC 8259, section 7 for strings, with the writer's separators.
  // ---------------------------------------------------------------------------------------------

  function HexValue(c: char): (r: Option<int>)
    ensures r.Some? ==> 0 <= r.value < 16
  {
    if '0' <= c <= '9' then Some(c as int - '0' as int)
    else if 'a' <= c <= 'f' then Some(c as int - 'a' as int + 10)
    else if 'A' <= c <= 'F' then Some(c as int - 'A' as int + 10)
    else None
  }

  /** The UTF-16 code unit that four hexadecimal digits stand for. */
  function UnitAt(t: string): (r: Option<int>)
    ensures r.Some? ==> |t| >= 4 && 0 <= r.value < 0x10000
  {
    if |t| < 4 then None
    else
      var a, b, c, d := HexValue(t[0]), HexValue(t[1]), HexValue(t[2]), HexValue(t[3]);
      if a.None? || b.None? || c.None? || d.None? then None
      else Some(4096 * a.value + 256 * b.value + 16 * c.value + d.value)
  }

  /** After backslash and u: one unit, or the two of a surrogate pair. */
  function ReadUnicode(t: string): (r: Option<(char, string)>)
    ensures r.Some? ==> |r.value.1| < |t|
  {
    var unit := UnitAt(t);
    if unit.None? then None
    else if unit.value < 0xD800 || unit.value >= 0xE000 then Some((unit.value as char, t[4..]))
    else if unit.value >= 0xDC00 || |t| < 10 || t[4] != '\\' || t[5] != 'u' then None
    else
      var low := UnitAt(t[6..]);
      if low.None? || !(0xDC00 <= low.value < 0xE000) then None
      else Some(((0x10000 + (unit.value - 0xD800) * 1024 + (low.value - 0xDC00)) as char, t[10..]))
  }

  function ReadChar(t: string): (r: Option<(char, string)>)
    ensures r.Some? ==> |r.value.1| < |t|
  {
    if t == "" then None
    else if t[0] != '\\' then Some((t[0], t[1..]))
    else if |t| < 2 then None
    else
      match t[1]
      case '\"' => Some(('\"', t[2..]))
      case '\\' => Some(('\\', t[2..]))
      case '/' => Some(('/', t[2..]))
      case 'n' => Some(('\n', t[2..]))
      case 'r' => Some(('\r', t[2..]))
      case 't' => Some(('\t', t[2..]))
      case 'b' => Some((8 as char, t[2..]))
      case 'f' => Some((12 as char, t[2..]))
      case 'u' => ReadUnicode(t[2..])
      case _ => None
  }

  /** The characters up to the closing quote. */
  function ReadStringTail(t: string): (r: Option<(string, string)>)
    ensures r.Some? ==> |r.value.1| < |t|
    decreases |t|
  {
    if t == "" then None
    else if t[0] == '\"' then Some(("", t[1..]))
    else
      var first := ReadChar(t);
      if first.None? then None
      else
        var others := ReadStringTail(first.value.1);
        if others.None? then None else Some(([first.value.0] + others.value.0, others.value.1))
  }

  predicate StartsWith(t: string, word: string) { |word| <= |t| && t[..|word|] == word }

  /** The length of the longest number-like prefix. */
  function NumberLength(t: string): (n: nat)
    ensures n <= |t|
  {
    if t == "" || !NumberChar(t[0]) then 0 else 1 + NumberLength(t[1..])
  }

  function ReadNumber(t: string): (r: Option<(Value, string)>)
    ensures r.Some? ==> |r.value.1| < |t|
  {
    if StartsWith(t, "NaN") then Some((Num("NaN"), t[3..]))
    else if StartsWith(t, "Infinity") then Some((Num("Infinity"), t[8..]))
    else if StartsWith(t, "-Infinity") then Some((Num("-Infinity"), t[9..]))
    else
      var n := NumberLength(t);
      if FiniteLiteral(t[..n]) then Some((Num(t[..n]), t[n..])) else None
  }

  function ReadValue(t: string): (r: Option<(Value, string)>)
    ensures r.Some? ==> |r.value.1| < |t|
    decreases |t|, 0
  {
    if t == "" then None
    else if StartsWith(t, "null") then Some((Null, t[4..]))
    else if StartsWith(t, "true") then Some((Bool(true), t[4..]))
    else if StartsWith(t, "false") then Some((Bool(false), t[5..]))
    else if t[0] == '\"' then
      var s := ReadStringTail(t[1..]);
      if s.None? then None else Some((Str(s.value.0), s.value.1))
    else if t[0] == '[' then
      var items := ReadItems(t[1..]);
      if items.None? then None else Some((Arr(items.value.0), items.value.1))
    else if t[0] == '{' then
      var fields := ReadFields(t[1..]);
      if fields.None? then None else Some((Obj(fields.value.0), fields.value.1))
    else ReadNumber(t)
  }

  function ReadItems(t: string): (r: Option<(Items, string)>)
    ensures r.Some? ==> |r.value.1| < |t|
    decreases |t|, 2
  {
    if StartsWith(t, "]") then Some((NoItems, t[1..])) else ReadItem(t)
  }

  function ReadItem(t: string): (r: Option<(Items, string)>)
    ensures r.Some? ==> |r.value.1| < |t|
    decreases |t|, 1
  {
    var head := ReadValue(t);
    if head.None? then None
    else
      var tail := ReadMoreItems(head.value.1);
      if tail.None? then None else Some((Item(head.value.0, tail.value.0), tail.value.1))
  }

  function ReadMoreItems(t: string): (r: Option<(Items, string)>)
    ensures r.Some? ==> |r.value.1| < |t|
    decreases |t|, 2
  {
    if StartsWith(t, "]") then Some((NoItems, t[1..]))
    else if StartsWith(t, ", ") then ReadItem(t[2..])
    else None
  }

  function ReadFields(t: string): (r: Option<(Fields, string)>)
    ensures r.Some? ==> |r.value.1| < |t|
    decreases |t|, 2
  {
    if StartsWith(t, "}") then Some((NoFields, t[1..])) else ReadField(t)
  }

  function ReadField(t: string): (r: Option<(Fields, string)>)
    ensures r.Some? ==> |r.value.1| < |t|
    decreases |t|, 1
  {
    if !StartsWith(t, "\"") then None
    else
      var key := ReadStringTail(t[1..]);
      if key.None? || !StartsWith(key.value.1, ": ") then None
      else
        var value := ReadValue(key.value.1[2..]);
        if value.None? then None
        else
          var rest := ReadMoreFields(value.value.1);
          if rest.None? then None else Some((Field(key.value.0, value.value.0, rest.value.0), rest.value.1))
  }

  function ReadMoreFields(t: string): (r: Option<(Fields, string)>)
    ensures r.Some? ==> |r.value.1| < |t|
    decreases |t|, 2
  {
    if StartsWith(t, "}") then Some((NoFields, t[1..]))
    else if StartsWith(t, ", ") then ReadField(t[2..])
    else None
  }

  // ---------------------------------------------------------------------------------------------
  // Everything written is read back.
  // ---------------------------------------------------------------------------------------------

  lemma Associate(a: string, b: string, c: string)
    ensures a + b + c == a + (b + c)
  {
  }

  lemma {:induction false} SameLength(a: string, r: string, b: string, q: string)
    requires |a| == |b| && a + r == b + q
    ensures a == b && r == q
  {
    assert a == (a + r)[..|a|] && b == (b + q)[..|a|];
    assert r == (a + r)[|a|..] && q == (b + q)[|a|..];
  }

  lemma WordReadBack(word: string, r: string)
    ensures StartsWith(word + r, word) && (word + r)[|word|..] == r
  {
  }

  lemma {:induction false} SameStart(t: string, word: string, i: nat)
    requires StartsWith(t, word) && i < |word|
    ensures t[i] == word[i]
  {
    assert t[..|word|][i] == t[i];
  }

  lemma {:induction false} OtherStart(t: string, word: string, i: nat)
    requires i < |t| && i < |word| && t[i] != word[i]
    ensures !StartsWith(t, word)
  {
    if StartsWith(t, word) {
      SameStart(t, word, i);
    }
  }

  lemma {:induction false} HexReadBack(n: int)
    requires 0 <= n < 16
    ensures HexValue(HexDigit(n)) == Some(n)
  {
  }

  lemma {:induction false} UnitReadBack(n: int, r: string)
    requires 0 <= n < 0x10000
    ensures UnitEscape(n)[0] == '\\' && UnitEscape(n)[1] == 'u'
    ensures |UnitEscape(n)| == 6 && UnitAt(UnitEscape(n)[2..] + r) == Some(n) && (UnitEscape(n)[2..] + r)[4..] == r
  {
    HexReadBack(n / 16 / 16 / 16);
    HexReadBack(n / 16 / 16 % 16);
    HexReadBack(n / 16 % 16);
    HexReadBack(n % 16);
    assert n == 4096 * (n / 16 / 16 / 16) + 256 * (n / 16 / 16 % 16) + 16 * (n / 16 % 16) + n % 16;
  }

  lemma {:induction false} UnicodeReadBack(high: int, low: int, r: string)
    requires 0xD800 <= high < 0xDC00 <= low < 0xE000
    ensures ReadUnicode(UnitEscape(high)[2..] + UnitEscape(low) + r)
         == Some(((0x10000 + (high - 0xD800) * 1024 + (low - 0xDC00)) as char, r))
  {
    var a, b := UnitEscape(high)[2..], UnitEscape(low);
    UnitReadBack(high, b + r);
    UnitReadBack(low, r);
    var t := a + b + r;
    Associate(a, b, r);
    assert t[6..] == b[2..] + r;
    assert t[10..] == (b[2..] + r)[4..];
    assert t[4] == b[0] && t[5] == b[1];
  }

  function HighUnit(c: char): int
    requires c as int >= 0x10000
  {
    0xD800 + (c as int - 0x10000) / 1024
  }

  function LowUnit(c: char): int
    requires c as int >= 0x10000
  {
    0xDC00 + (c as int - 0x10000) % 1024
  }

  lemma PairIs(c: char)
    requires c as int >= 0x10000
    ensures 0xD800 <= HighUnit(c) < 0xDC00 <= LowUnit(c) < 0xE000
    ensures 0x10000 + (HighUnit(c) - 0xD800) * 1024 + (LowUnit(c) - 0xDC00) == c as int
    ensures CharText(c) == UnitEscape(HighUnit(c)) + UnitEscape(LowUnit(c))
  {
  }

  lemma {:induction false} AfterEscape(n: int, t: string)
    requires 0 <= n < 0x10000
    ensures ReadChar(UnitEscape(n) + t) == ReadUnicode(UnitEscape(n)[2..] + t)
  {
    assert (UnitEscape(n) + t)[2..] == UnitEscape(n)[2..] + t;
  }

  lemma {:induction false} PairReadBack(c: char, r: string)
    requires c as int >= 0x10000
    ensures ReadChar(CharText(c) + r) == Some((c, r))
  {
    PairIs(c);
    var a, b := UnitEscape(HighUnit(c)), UnitEscape(LowUnit(c));
    Associate(a, b, r);
    AfterEscape(HighUnit(c), b + r);
    Associate(a[2..], b, r);
    UnicodeReadBack(HighUnit(c), LowUnit(c), r);
  }

  lemma {:induction false} EscapeReadBack(n: int, r: string)
    requires 0 <= n < 0xD800 || 0xE000 <= n < 0x10000
    ensures ReadChar(UnitEscape(n) + r) == Some((n as char, r))
  {
    UnitReadBack(n, r);
    assert (UnitEscape(n) + r)[2..] == UnitEscape(n)[2..] + r;
  }

  lemma {:induction false} ShortReadBack(c: char, r: string)
    requires |CharText(c)| <= 2
    ensures ReadChar(CharText(c) + r) == Some((c, r))
  {
    assert (CharText(c) + r)[|CharText(c)|..] == r;
  }

  lemma {:induction false} CharReadBack(c: char, r: string)
    ensures ReadChar(CharText(c) + r) == Some((c, r))
  {
    if |CharText(c)| <= 2 {
      ShortReadBack(c, r);
    } else if c as int < 0x10000 {
      EscapeReadBack(c as int, r);
    } else {
      PairReadBack(c, r);
    }
  }

  lemma {:induction false} StringReadBack(s: string, r: string)
    ensures ReadStringTail(StringTail(s) + r) == Some((s, r))
  {
    if s == "" {
      assert ("\"" + r)[1..] == r;
    } else {
      Associate(CharText(s[0]), StringTail(s[1..]), r);
      CharReadBack(s[0], StringTail(s[1..]) + r);
      StringReadBack(s[1..], r);
      assert (StringTail(s) + r)[0] == CharText(s[0])[0] != '\"';
      assert [s[0]] + s[1..] == s;
    }
  }

  lemma {:induction false} NumberLengthIs(a: string, r: string)
    requires (forall c :: c in a ==> NumberChar(c)) && Ends(r)
    ensures NumberLength(a + r) == |a|
  {
    if a != "" {
      assert (a + r)[1..] == a[1..] + r;
      NumberLengthIs(a[1..], r);
    }
  }

  lemma {:induction false} NumberReadBack(literal: string, r: string)
    requires Proper(Num(literal)) && Ends(r)
    ensures ReadValue(literal + r) == Some((Num(literal), r))
  {
    var t := literal + r;
    WordReadBack(literal, r);
    if FiniteLiteral(literal) {
      NumberLengthIs(literal, r);
      assert t[0] == literal[0] && (literal[0] == '-' ==> t[1] == literal[1]);
      OtherStart(t, "NaN", 0);
      OtherStart(t, "Infinity", 0);
      OtherStart(t, "-Infinity", if t[0] == '-' then 1 else 0);
      assert t[..|literal|] == literal;
    }
    NoKeyword(t);
  }

  /** A text that opens like a number is no keyword. */
  lemma {:induction false} NoKeyword(t: string)
    requires t != "" && (Digit(t[0]) || t[0] == '-' || t[0] == 'N' || t[0] == 'I')
    ensures !StartsWith(t, "null") && !StartsWith(t, "true") && !StartsWith(t, "false")
  {
    OtherStart(t, "null", 0);
    OtherStart(t, "true", 0);
    OtherStart(t, "false", 0);
  }

  /** Nor is one that opens like a string, an array or an object. */
  lemma {:induction false} Opens(c: char, t: string)
    requires c == '\"' || c == '[' || c == '{'
    ensures var u := [c] + t; u[1..] == t && !StartsWith(u, "null") && !StartsWith(u, "true") && !StartsWith(u, "false")
  {
    OtherStart([c] + t, "null", 0);
    OtherStart([c] + t, "true", 0);
    OtherStart([c] + t, "false", 0);
  }

  /** Main result: whatever follows it, the text of a value is read back as that value. */
  lemma {:induction false} TextReadBack(v: Value, r: string)
    requires Proper(v) && Ends(r)
    ensures ReadValue(Text(v) + r) == Some((v, r))
    decreases v, 0
  {
    match v
    case Null => WordReadBack("null", r);
    case Bool(b) =>
      WordReadBack(Text(v), r);
      assert (Text(v) + r)[0] != 'n';
    case Num(literal) => NumberReadBack(literal, r);
    case Str(s) =>
      Associate("\"", StringTail(s), r);
      Opens('\"', StringTail(s) + r);
      StringReadBack(s, r);
    case Arr(items) =>
      Associate("[", ItemsTail(items), r);
      Opens('[', ItemsTail(items) + r);
      ItemsReadBack(items, r);
    case Obj(fields) =>
      Associate("{", FieldsTail(fields), r);
      Opens('{', FieldsTail(fields) + r);
      FieldsReadBack(fields, r);
  }

  /** The first character of a value's text. */
  lemma TextHead(v: Value)
    requires Proper(v)
    ensures Text(v) != "" && Text(v)[0] != ']'
  {
  }

  lemma {:induction false} ItemsReadBack(items: Items, r: string)
    requires ProperItems(items)
    ensures ReadItems(ItemsTail(items) + r) == Some((items, r))
    decreases items, 3
  {
    WordReadBack("]", r);
    if items.Item? {
      TextHead(items.head);
      ItemReadBack(items, r);
      assert ItemsTail(items)[0] == Text(items.head)[0];
    }
  }

  lemma {:induction false} ItemReadBack(items: Items, r: string)
    requires ProperItems(items) && items.Item?
    ensures ReadItem(ItemsTail(items) + r) == Some((items, r))
    decreases items, 2
  {
    Associate(Text(items.head), MoreItems(items.tail), r);
    MoreHead(items.tail, r);
    TextReadBack(items.head, MoreItems(items.tail) + r);
    MoreItemsReadBack(items.tail, r);
  }

  lemma MoreHead(items: Items, r: string)
    ensures Ends(MoreItems(items) + r)
  {
  }

  lemma {:induction false} MoreItemsReadBack(items: Items, r: string)
    requires ProperItems(items)
    ensures ReadMoreItems(MoreItems(items) + r) == Some((items, r))
    decreases items, 4
  {
    WordReadBack("]", r);
    if items.Item? {
      Associate(", ", ItemsTail(items), r);
      WordReadBack(", ", ItemsTail(items) + r);
      OtherStart(MoreItems(items) + r, "]", 0);
      ItemReadBack(items, r);
    }
  }

  lemma {:induction false} FieldsReadBack(fields: Fields, r: string)
    requires ProperFields(fields)
    ensures ReadFields(FieldsTail(fields) + r) == Some((fields, r))
    decreases fields, 3
  {
    WordReadBack("}", r);
    if fields.Field? {
      FieldReadBack(fields, r);
    }
  }

  lemma {:induction false} FieldReadBack(fields: Fields, r: string)
    requires ProperFields(fields) && fields.Field?
    ensures ReadField(FieldsTail(fields) + r) == Some((fields, r))
    decreases fields, 2
  {
    var afterValue := MoreFields(fields.rest) + r;
    var afterKey := ": " + (Text(fields.value) + afterValue);
    var t := FieldsTail(fields) + r;
    FieldTailIs(fields, r);
    WordReadBack("\"", StringTail(fields.key) + afterKey);
    StringReadBack(fields.key, afterKey);
    WordReadBack(": ", Text(fields.value) + afterValue);
    TextReadBack(fields.value, afterValue);
    MoreFieldsReadBack(fields.rest, r);
  }

  lemma {:induction false} FieldTailIs(fields: Fields, r: string)
    requires fields.Field?
    ensures FieldsTail(fields) + r
         == "\"" + (StringTail(fields.key) + (": " + (Text(fields.value) + (MoreFields(fields.rest) + r))))
  {
  }

  lemma {:induction false} MoreFieldsReadBack(fields: Fields, r: string)
    requires ProperFields(fields)
    ensures ReadMoreFields(MoreFields(fields) + r) == Some((fields, r))
    decreases fields, 4
  {
    WordReadBack("}", r);
    if fields.Field? {
      Associate(", ", FieldsTail(fields), r);
      WordReadBack(", ", FieldsTail(fields) + r);
      OtherStart(MoreFields(fields) + r, "}", 0);
      FieldReadBack(fields, r);
    }
  }

  // ---------------------------------------------------------------------------------------------
  // So no two values share a text.
  // ---------------------------------------------------------------------------------------------

  lemma {:induction false} CharInjective(c: char, d: char, r: string, q: string)
    requires CharText(c) + r == CharText(d) + q
    ensures c == d && r == q
  {
    CharReadBack(c, r);
    CharReadBack(d, q);
  }

  lemma {:induction false} TextInjective(v: Value, w: Value, r: string, q: string)
    requires Proper(v) && Proper(w) && Ends(r) && Ends(q)
    requires Text(v) + r == Text(w) + q
    ensures v == w && r == q
  {
    TextReadBack(v, r);
    TextReadBack(w, q);
  }

  // ---------------------------------------------------------------------------------------------
  // The choices json.dumps makes where a reader accepts several.
  // ---------------------------------------------------------------------------------------------

  predicate Plain(c: char) { ' ' <= c <= '~' && c != '\"' && c != '\\' }

  /** Printable ASCII stands for itself. */
  lemma {:induction false} PlainTextIsLiteral(s: string)
    requires forall c :: c in s ==> Plain(c)
    ensures StringTail(s) == s + "\""
  {
    if s != "" {
      assert s[0] in s && forall c :: c in s[1..] ==> c in s;
      PlainTextIsLiteral(s[1..]);
      assert [s[0]] + (s[1..] + "\"") == s + "\"";
    }
  }

  lemma {:induction false} UnitIsLowerCase(n: int)
    requires 0 <= n < 0x10000
    ensures forall x :: x in UnitEscape(n) ==> ' ' <= x <= '~' && !('A' <= x <= 'Z')
  {
    HexIsLowerCase(n / 16 / 16 / 16);
    HexIsLowerCase(n / 16 / 16 % 16);
    HexIsLowerCase(n / 16 % 16);
    HexIsLowerCase(n % 16);
  }

  lemma HexIsLowerCase(n: int)
    requires 0 <= n < 16
    ensures ' ' <= HexDigit(n) <= '~' && !('A' <= HexDigit(n) <= 'Z')
  {
  }

  /** The text is printable ASCII throughout, and hexadecimal digits are in lower case. */
  lemma {:induction false} EscapesArePrintable(c: char)
    ensures forall x :: x in CharText(c) ==> ' ' <= x <= '~'
    ensures |CharText(c)| >= 6 ==> forall x :: x in CharText(c) ==> !('A' <= x <= 'Z')
  {
    var n := c as int;
    if |CharText(c)| == 6 {
      UnitIsLowerCase(n);
    } else if |CharText(c)| > 6 {
      UnitIsLowerCase(0xD800 + (n - 0x10000) / 1024);
      UnitIsLowerCase(0xDC00 + (n - 0x10000) % 1024);
    }
  }

  /** A two-character escape is used wherever there is one. */
  lemma EscapesAreShortest(c: char)
    ensures |CharText(c)| ==
      if Plain(c) then 1
      else if c in "\"\\\n\r\t" || c as int == 8 || c as int == 12 then 2
      else if c as int < 0x10000 then 6 else 12
  {
  }
}
