/**
 A reader for the literal syntax the raw-constants source uses, and the
 proof that it reads every literal back to the value it was written from,
 provided no string in the value contains a quote character.
 */
module LiteralReader {
  import opened Wrappers
  import opened Json
  import opened PyRepr
  import PyStr

  predicate IsDigit(c: char)
  {
    '0' <= c <= '9'
  }

  predicate IsHexDigit(c: char)
  {
    '0' <= c <= '9' || 'a' <= c <= 'f'
  }

  /** Length of the run of decimal digits at the front of `s`. */
  function DigitRun(s: string): (n: nat)
    ensures n <= |s|
    ensures forall i :: 0 <= i < n ==> IsDigit(s[i])
    ensures n < |s| ==> !IsDigit(s[n])
  {
    if |s| == 0 || !IsDigit(s[0]) then 0 else 1 + DigitRun(s[1..])
  }

  function DecValue(ds: string): nat
    requires forall i :: 0 <= i < |ds| ==> IsDigit(ds[i])
  {
    if |ds| == 0 then 0
    else
      assert IsDigit(ds[|ds| - 1]);
      DecValue(ds[..|ds| - 1]) * 10 + (ds[|ds| - 1] as int - '0' as int)
  }

  function HexDigitValue(c: char): nat
    requires IsHexDigit(c)
  {
    if c <= '9' then c as int - '0' as int else c as int - 'a' as int + 10
  }

  function HexValue(ds: string): nat
    requires forall i :: 0 <= i < |ds| ==> IsHexDigit(ds[i])
  {
    if |ds| == 0 then 0 else HexValue(ds[..|ds| - 1]) * 16 + HexDigitValue(ds[|ds| - 1])
  }

  /** Code points a `char` can hold. */
  predicate IsScalar(n: int)
  {
    0 <= n < 0xD800 || 0xE000 <= n < 0x11_0000
  }

  /** The character spelled by the `w` hex digits at the front of `s`. */
  function ReadHexChar(s: string, w: nat): Option<char>
  {
    if |s| >= w && (forall i :: 0 <= i < w ==> IsHexDigit(s[i])) && IsScalar(HexValue(s[..w]))
    then Some(HexValue(s[..w]) as char)
    else None
  }

  /** An escape, read after its backslash: the character and how many characters it spans. */
  function ReadEscape(s: string): (r: Option<(char, nat)>)
    ensures r.Some? ==> 1 <= r.value.1 <= |s|
  {
    if |s| == 0 then None
    else if s[0] == '\\' then Some(('\\', 1))
    else if s[0] == 't' then Some(('\t', 1))
    else if s[0] == 'n' then Some(('\n', 1))
    else if s[0] == 'r' then Some(('\r', 1))
    else
      var w := if s[0] == 'x' then 2 else if s[0] == 'u' then 4 else if s[0] == 'U' then 8 else 0;
      if w == 0 then None
      else
        match ReadHexChar(s[1..], w)
        case None => None
        case Some(c) => Some((c, 1 + w))
  }

  /** A string body up to its closing `"`, and what follows it. */
  function ReadStrBody(s: string): (r: Option<(string, string)>)
    ensures r.Some? ==> |r.value.1| < |s|
    decreases |s|
  {
    if |s| == 0 then None
    else if s[0] == '"' then Some(("", s[1..]))
    else if s[0] == '\\' then
      match ReadEscape(s[1..])
      case None => None
      case Some(ck) =>
        match ReadStrBody(s[1 + ck.1..])
        case None => None
        case Some(tr) => Some(([ck.0] + tr.0, tr.1))
    else
      match ReadStrBody(s[1..])
      case None => None
      case Some(tr) => Some(([s[0]] + tr.0, tr.1))
  }

  /** A fixed word such as `None`, standing for `v`. */
  function ReadWord(s: string, word: string, v: Value): (r: Option<(Value, string)>)
    requires |word| > 0
    ensures r.Some? ==> |r.value.1| < |s|
  {
    if word <= s then Some((v, s[|word|..])) else None
  }

  /** An int: an optional `-` and a run of decimal digits. */
  function ReadInt(s: string): (r: Option<(Value, string)>)
    ensures r.Some? ==> |r.value.1| < |s|
  {
    if |s| > 0 && s[0] == '-' then
      var n := DigitRun(s[1..]);
      if n == 0 then None else Some((Int(-(DecValue(s[1..1 + n]) as int)), s[1 + n..]))
    else
      var n := DigitRun(s);
      if n == 0 then None else Some((Int(DecValue(s[..n])), s[n..]))
  }

  /** A double-quoted string. */
  function ReadStr(s: string): (r: Option<(Value, string)>)
    ensures r.Some? ==> |r.value.1| < |s|
  {
    if |s| > 0 && s[0] == '"' then
      match ReadStrBody(s[1..])
      case None => None
      case Some(tr) => Some((Str(tr.0), tr.1))
    else None
  }

  /** One literal at the front of `s`, chosen by its first character, and what follows it. */
  function ReadValue(s: string): (r: Option<(Value, string)>)
    ensures r.Some? ==> |r.value.1| < |s|
    decreases |s|, 1
  {
    if |s| == 0 then None
    else if s[0] == 'N' then ReadWord(s, "None", Null)
    else if s[0] == 'T' then ReadWord(s, "True", Bool(true))
    else if s[0] == 'F' then ReadWord(s, "False", Bool(false))
    else if s[0] == '"' then ReadStr(s)
    else if s[0] == '-' || IsDigit(s[0]) then ReadInt(s)
    else if s[0] == '[' then ReadList(s)
    else if s[0] == '{' then ReadDict(s)
    else None
  }

  /** `[]`, or `[` followed by items. */
  function ReadList(s: string): (r: Option<(Value, string)>)
    ensures r.Some? ==> |r.value.1| < |s|
    decreases |s|, 0
  {
    if "[]" <= s then Some((List([]), s[2..]))
    else if |s| > 0 && s[0] == '[' then
      match ReadItems(s[1..])
      case None => None
      case Some(ir) => Some((List(ir.0), ir.1))
    else None
  }

  /** `{}`, or `{` followed by entries. */
  function ReadDict(s: string): (r: Option<(Value, string)>)
    ensures r.Some? ==> |r.value.1| < |s|
    decreases |s|, 0
  {
    if "{}" <= s then Some((Object([]), s[2..]))
    else if |s| > 0 && s[0] == '{' then
      match ReadFields(s[1..])
      case None => None
      case Some(fr) => Some((Object(fr.0), fr.1))
    else None
  }

  /** List items, each followed by `, ` or, for the last, by `]`. */
  function ReadItems(s: string): (r: Option<(seq<Value>, string)>)
    ensures r.Some? ==> |r.value.1| < |s|
    decreases |s|, 2
  {
    match ReadValue(s)
    case None => None
    case Some(vr) =>
      var rest := vr.1;
      if ", " <= rest then
        match ReadItems(rest[2..])
        case None => None
        case Some(ir) => Some(([vr.0] + ir.0, ir.1))
      else if "]" <= rest then Some(([vr.0], rest[1..]))
      else None
  }

  /** One dict entry `"key": value`, and what follows it. */
  function ReadEntry(s: string): (r: Option<(Entry, string)>)
    ensures r.Some? ==> |r.value.1| < |s|
    decreases |s|, 2
  {
    match ReadStr(s)
    case None => None
    case Some(kr) =>
      if kr.0.Str? && ": " <= kr.1 then
        match ReadValue(kr.1[2..])
        case None => None
        case Some(vr) => Some((Entry(kr.0.s, vr.0), vr.1))
      else None
  }

  /** Dict entries, each followed by `, ` or, for the last, by `}`. */
  function ReadFields(s: string): (r: Option<(seq<Entry>, string)>)
    ensures r.Some? ==> |r.value.1| < |s|
    decreases |s|, 3
  {
    match ReadEntry(s)
    case None => None
    case Some(er) =>
      var rest := er.1;
      if ", " <= rest then
        match ReadFields(rest[2..])
        case None => None
        case Some(fr) => Some(([er.0] + fr.0, fr.1))
      else if "}" <= rest then Some(([er.0], rest[1..]))
      else None
  }

  predicate QuoteFreeStr(s: string)
  {
    '\'' !in s && '"' !in s
  }

  /** No string or dict key anywhere in `v` contains `'` or `"`. */
  predicate QuoteFree(v: Value)
  {
    match v
    case Str(s) => QuoteFreeStr(s)
    case List(items) => QuoteFreeItems(items)
    case Object(fields) => QuoteFreeFields(fields)
    case _ => true
  }

  predicate QuoteFreeItems(items: seq<Value>)
  {
    |items| == 0 || (QuoteFree(items[0]) && QuoteFreeItems(items[1..]))
  }

  predicate QuoteFreeFields(fields: seq<Entry>)
  {
    |fields| == 0 || (QuoteFreeStr(fields[0].key) && QuoteFree(fields[0].val) && QuoteFreeFields(fields[1..]))
  }

  // ---- numbers ----

  lemma {:induction false} NatDigitsRead(n: nat)
    ensures forall i :: 0 <= i < |NatDigits(n)| ==> IsDigit(NatDigits(n)[i])
    ensures DecValue(NatDigits(n)) == n
    decreases n
  {
    if n >= 10 {
      NatDigitsRead(n / 10);
      var ds := NatDigits(n);
      assert ds[..|ds| - 1] == NatDigits(n / 10);
    }
  }

  lemma {:induction false} DigitRunOf(ds: string, rest: string)
    requires forall i :: 0 <= i < |ds| ==> IsDigit(ds[i])
    requires rest == [] || !IsDigit(rest[0])
    ensures DigitRun(ds + rest) == |ds|
    decreases |ds|
  {
    if |ds| > 0 {
      assert (ds + rest)[1..] == ds[1..] + rest;
      DigitRunOf(ds[1..], rest);
    } else {
      assert ds + rest == rest;
    }
  }

  lemma {:induction false} HexRead(n: nat, w: nat)
    requires n < Pow16(w)
    ensures forall i :: 0 <= i < w ==> IsHexDigit(Hex(n, w)[i])
    ensures HexValue(Hex(n, w)) == n
    decreases w
  {
    if w > 0 {
      assert n / 16 < Pow16(w - 1);
      HexRead(n / 16, w - 1);
      var h := Hex(n, w);
      assert h[..w - 1] == Hex(n / 16, w - 1);
      assert HexDigitValue(HexDigit(n % 16)) == n % 16;
    }
  }

  // ---- strings ----

  /** After the backslash, `x`, `u` or `U` and the hex digits read back to the character. */
  lemma HexEscapeValue(c: char, letter: char, w: nat, tail: string)
    requires (letter == 'x' && w == 2) || (letter == 'u' && w == 4) || (letter == 'U' && w == 8)
    requires c as int < Pow16(w)
    ensures ReadEscape([letter] + Hex(c as int, w) + tail) == Some((c, 1 + w))
  {
    var n := c as int;
    var h := Hex(n, w);
    HexRead(n, w);
    var s := [letter] + h + tail;
    assert s[1..][..w] == h;
    assert ReadHexChar(s[1..], w) == Some(c) by {
      assert IsScalar(n);
    }
  }

  /** A backslash and an escape that reads back to `c` contribute `c` to the string body. */
  lemma EscapeStep(c: char, esc: string, tail: string)
    requires ReadEscape(esc + tail) == Some((c, |esc|))
    ensures ReadStrBody("\\" + esc + tail)
         == match ReadStrBody(tail)
            case None => None
            case Some(tr) => Some(([c] + tr.0, tr.1))
  {
    PyStr.Regroup3("\\", esc, tail);
    PyStr.DropFront("\\", esc + tail);
    PyStr.DropFront(esc, tail);
    assert ("\\" + (esc + tail))[1 + |esc|..] == (esc + tail)[|esc|..];
  }

  /** A character written as itself contributes itself to the string body. */
  lemma PlainStep(c: char, tail: string)
    requires c != '"' && c != '\\'
    ensures ReadStrBody([c] + tail)
         == match ReadStrBody(tail)
            case None => None
            case Some(tr) => Some(([c] + tr.0, tr.1))
  {
    PyStr.DropFront([c], tail);
  }

  /** A `\x`, `\u` or `\U` escape reads back to the character it spells. */
  lemma HexEscapeRead(c: char, letter: char, w: nat, tail: string)
    requires (letter == 'x' && w == 2) || (letter == 'u' && w == 4) || (letter == 'U' && w == 8)
    requires c as int < Pow16(w)
    ensures '\'' !in "\\" + ([letter] + Hex(c as int, w))
    ensures ReadStrBody("\\" + ([letter] + Hex(c as int, w)) + tail)
         == match ReadStrBody(tail)
            case None => None
            case Some(tr) => Some(([c] + tr.0, tr.1))
  {
    var h := Hex(c as int, w);
    HexHasNoQuote(c as int, w);
    HexEscapeValue(c, letter, w, tail);
    EscapeStep(c, [letter] + h, tail);
  }

  lemma HexHasNoQuote(n: nat, w: nat)
    requires n < Pow16(w)
    ensures '\'' !in Hex(n, w)
  {
    var h := Hex(n, w);
    HexRead(n, w);
    forall i | 0 <= i < |h| ensures h[i] != '\'' {
      assert IsHexDigit(h[i]);
    }
  }

  /** The characters written as a backslash and one letter. */
  predicate ShortEscaped(c: char)
  {
    c == '\\' || c == '\t' || c == '\n' || c == '\r'
  }

  /** The characters written as a hex escape, and the escape's letter and width. */
  predicate HexEscaped(c: char, isPrintable: char -> bool)
  {
    var n := c as int;
    !ShortEscaped(c) && (n < 0x20 || n == 0x7f || (n > 0x7f && !isPrintable(c)))
  }

  function HexLetter(n: int): char
  {
    if n <= 0xff then 'x' else if n <= 0xffff then 'u' else 'U'
  }

  function HexWidth(n: int): nat
  {
    if n <= 0xff then 2 else if n <= 0xffff then 4 else 8
  }

  lemma ShortEscapeCharRead(c: char, isPrintable: char -> bool, tail: string)
    requires ShortEscaped(c)
    ensures '\'' !in EscapeChar(c, '\'', isPrintable)
    ensures ReadStrBody(EscapeChar(c, '\'', isPrintable) + tail)
         == match ReadStrBody(tail)
            case None => None
            case Some(tr) => Some(([c] + tr.0, tr.1))
  {
    var letter := if c == '\\' then '\\' else if c == '\t' then 't' else if c == '\n' then 'n' else 'r';
    assert EscapeChar(c, '\'', isPrintable) == "\\" + [letter];
    EscapeStep(c, [letter], tail);
    PyStr.Regroup3("\\", [letter], tail);
  }

  lemma HexEscapeCharRead(c: char, isPrintable: char -> bool, tail: string)
    requires HexEscaped(c, isPrintable)
    ensures '\'' !in EscapeChar(c, '\'', isPrintable)
    ensures ReadStrBody(EscapeChar(c, '\'', isPrintable) + tail)
         == match ReadStrBody(tail)
            case None => None
            case Some(tr) => Some(([c] + tr.0, tr.1))
  {
    var n := c as int;
    var letter, w := HexLetter(n), HexWidth(n);
    assert n < Pow16(w) by {
      assert Pow16(2) == 256 && Pow16(4) == 0x1_0000 && Pow16(8) == 0x1_0000_0000;
    }
    assert EscapeChar(c, '\'', isPrintable) == "\\" + [letter] + Hex(n, w);
    HexEscapeRead(c, letter, w, tail);
    PyStr.Regroup("\\", [letter], Hex(n, w), tail);
    PyStr.Regroup3("\\", [letter], Hex(n, w));
  }

  /** The escape written for a character that is not a quote reads back to it. */
  lemma EscapeCharRead(c: char, isPrintable: char -> bool, tail: string)
    requires c != '\'' && c != '"'
    ensures '\'' !in EscapeChar(c, '\'', isPrintable)
    ensures ReadStrBody(EscapeChar(c, '\'', isPrintable) + tail)
         == match ReadStrBody(tail)
            case None => None
            case Some(tr) => Some(([c] + tr.0, tr.1))
  {
    if ShortEscaped(c) {
      ShortEscapeCharRead(c, isPrintable, tail);
    } else if HexEscaped(c, isPrintable) {
      HexEscapeCharRead(c, isPrintable, tail);
    } else {
      assert EscapeChar(c, '\'', isPrintable) == [c];
      PlainStep(c, tail);
    }
  }

  /** A quote-free string's escaped body, closed by `"`, reads back to the string. */
  lemma {:induction false} EscapeRead(s: string, isPrintable: char -> bool, rest: string)
    requires QuoteFreeStr(s)
    ensures '\'' !in Escape(s, '\'', isPrintable)
    ensures ReadStrBody(Escape(s, '\'', isPrintable) + "\"" + rest) == Some((s, rest))
    decreases |s|
  {
    if |s| == 0 {
      assert Escape(s, '\'', isPrintable) + "\"" + rest == "\"" + rest;
    } else {
      EscapeRead(s[1..], isPrintable, rest);
      var e0 := EscapeChar(s[0], '\'', isPrintable);
      var e1 := Escape(s[1..], '\'', isPrintable);
      PyStr.Regroup(e0, e1, "\"", rest);
      PyStr.Regroup3(e1, "\"", rest);
      EscapeCharRead(s[0], isPrintable, e1 + "\"" + rest);
      assert [s[0]] + s[1..] == s;
    }
  }

  /** The quote replacement spread over a concatenation. */
  lemma Unquote(a: string, b: string)
    ensures PyStr.Replace(a + b, "'", "\"") == PyStr.Replace(a, "'", "\"") + PyStr.Replace(b, "'", "\"")
  {
    PyStr.ReplaceCharAppend(a, b, '\'', "\"");
  }

  /** Text without `'` is left alone by the quote replacement. */
  lemma Unquoted(a: string)
    requires '\'' !in a
    ensures PyStr.Replace(a, "'", "\"") == a
  {
    PyStr.ReplaceCharAbsent(a, '\'', "\"");
  }

  /** A quote-free string is written `"` + its escaped body + `"`. */
  lemma StrLiteral(s: string, isPrintable: char -> bool)
    requires QuoteFreeStr(s)
    ensures PyStr.Replace(StrRepr(s, isPrintable), "'", "\"") == "\"" + Escape(s, '\'', isPrintable) + "\""
  {
    var body := Escape(s, '\'', isPrintable);
    EscapeRead(s, isPrintable, "");
    assert StrRepr(s, isPrintable) == "'" + body + "'";
    Unquote("'" + body, "'");
    Unquote("'", body);
    Unquoted(body);
    assert PyStr.Replace("'", "'", "\"") == "\"";
  }

  /**
   An int's `repr` is a `-` exactly when it is negative, then decimal
   digits that spell its magnitude; it has no `'`.
   */
  lemma IntReprShape(n: int)
    ensures IntRepr(n) == (if n < 0 then "-" else "") + NatDigits(if n < 0 then -n else n)
    ensures '\'' !in IntRepr(n)
    ensures |IntRepr(n)| > 0 && (IntRepr(n)[0] == '-' || IsDigit(IntRepr(n)[0]))
    ensures (IntRepr(n)[0] == '-') <==> n < 0
    ensures var k := if n < 0 then 1 else 0;
            && k < |IntRepr(n)|
            && (forall i :: k <= i < |IntRepr(n)| ==> IsDigit(IntRepr(n)[i]))
            && DecValue(IntRepr(n)[k..]) == (if n < 0 then -n else n)
  {
    var m: nat := if n < 0 then -n else n;
    NatDigitsRead(m);
    var r := IntRepr(n);
    var k := if n < 0 then 1 else 0;
    assert r[k..] == NatDigits(m);
    forall i | 0 <= i < |r| ensures r[i] != '\'' {
      if n < 0 && i > 0 {
        assert r[i] == NatDigits(m)[i - 1];
      }
    }
    forall i | k <= i < |r| ensures IsDigit(r[i]) {
      assert r[i] == NatDigits(m)[i - k];
    }
  }

  // ---- quote-free literals, spelled out ----

  /**
   The literal of a quote-free value written out directly: strings between
   `"` with their `repr` escapes, everything else as `repr` writes it.
   `LiteralIsText` shows this is what the quote replacement produces.
   */
  function Text(v: Value, isPrintable: char -> bool): string
  {
    match v
    case Str(s) => "\"" + Escape(s, '\'', isPrintable) + "\""
    case List(items) => "[" + TextItems(items, isPrintable) + "]"
    case Object(fields) => "{" + TextFields(fields, isPrintable) + "}"
    case _ => Repr(v, isPrintable)
  }

  function TextItems(items: seq<Value>, isPrintable: char -> bool): string
  {
    if |items| == 0 then ""
    else if |items| == 1 then Text(items[0], isPrintable)
    else Text(items[0], isPrintable) + ", " + TextItems(items[1..], isPrintable)
  }

  function TextField(e: Entry, isPrintable: char -> bool): string
  {
    "\"" + Escape(e.key, '\'', isPrintable) + "\"" + ": " + Text(e.val, isPrintable)
  }

  function TextFields(fields: seq<Entry>, isPrintable: char -> bool): string
  {
    if |fields| == 0 then ""
    else if |fields| == 1 then TextField(fields[0], isPrintable)
    else TextField(fields[0], isPrintable) + ", " + TextFields(fields[1..], isPrintable)
  }

  lemma {:induction false} LiteralIsText(v: Value, isPrintable: char -> bool)
    requires QuoteFree(v)
    ensures Literal(v, isPrintable) == Text(v, isPrintable)
    decreases v, 1
  {
    match v
    case Null => Unquoted("None");
    case Bool(b) =>
      Unquoted("True");
      Unquoted("False");
    case Int(n) =>
      IntReprShape(n);
      Unquoted(IntRepr(n));
    case Str(t) => StrLiteral(t, isPrintable);
    case List(items) => ListLiteral(items, isPrintable);
    case Object(fields) => DictLiteral(fields, isPrintable);
  }

  lemma {:induction false} ListLiteral(items: seq<Value>, isPrintable: char -> bool)
    requires QuoteFreeItems(items)
    ensures Literal(List(items), isPrintable) == Text(List(items), isPrintable)
    decreases items, 1
  {
    Unquote("[" + ReprItems(items, isPrintable), "]");
    Unquote("[", ReprItems(items, isPrintable));
    ItemsText(items, isPrintable);
  }

  lemma {:induction false} DictLiteral(fields: seq<Entry>, isPrintable: char -> bool)
    requires QuoteFreeFields(fields)
    ensures Literal(Object(fields), isPrintable) == Text(Object(fields), isPrintable)
    decreases fields, 1
  {
    Unquote("{" + ReprFields(fields, isPrintable), "}");
    Unquote("{", ReprFields(fields, isPrintable));
    FieldsText(fields, isPrintable);
  }

  lemma {:induction false} ItemsText(items: seq<Value>, isPrintable: char -> bool)
    requires QuoteFreeItems(items)
    ensures PyStr.Replace(ReprItems(items, isPrintable), "'", "\"") == TextItems(items, isPrintable)
    decreases items, 0
  {
    if |items| == 1 {
      LiteralIsText(items[0], isPrintable);
    } else if |items| > 1 {
      Unquote(Repr(items[0], isPrintable) + ", ", ReprItems(items[1..], isPrintable));
      Unquote(Repr(items[0], isPrintable), ", ");
      Unquoted(", ");
      LiteralIsText(items[0], isPrintable);
      ItemsText(items[1..], isPrintable);
    }
  }

  lemma {:induction false} FieldText(e: Entry, isPrintable: char -> bool)
    requires QuoteFreeStr(e.key) && QuoteFree(e.val)
    ensures PyStr.Replace(ReprField(e, isPrintable), "'", "\"") == TextField(e, isPrintable)
    decreases e, 1
  {
    Unquote(StrRepr(e.key, isPrintable) + ": ", Repr(e.val, isPrintable));
    Unquote(StrRepr(e.key, isPrintable), ": ");
    Unquoted(": ");
    StrLiteral(e.key, isPrintable);
    LiteralIsText(e.val, isPrintable);
  }

  lemma {:induction false} FieldsText(fields: seq<Entry>, isPrintable: char -> bool)
    requires QuoteFreeFields(fields)
    ensures PyStr.Replace(ReprFields(fields, isPrintable), "'", "\"") == TextFields(fields, isPrintable)
    decreases fields, 0
  {
    if |fields| == 1 {
      FieldText(fields[0], isPrintable);
    } else if |fields| > 1 {
      Unquote(ReprField(fields[0], isPrintable) + ", ", ReprFields(fields[1..], isPrintable));
      Unquote(ReprField(fields[0], isPrintable), ", ");
      Unquoted(", ");
      FieldText(fields[0], isPrintable);
      FieldsText(fields[1..], isPrintable);
    }
  }

  /** Every text is non-empty and starts with neither `]` nor `}`. */
  lemma TextStart(v: Value, isPrintable: char -> bool)
    ensures |Text(v, isPrintable)| > 0
    ensures Text(v, isPrintable)[0] != ']' && Text(v, isPrintable)[0] != '}'
  {
    match v
    case Int(n) => IntReprShape(n);
    case _ =>
  }

  // Which reader `ReadValue` hands the text to, by its first character.

  /** The three values written as a bare word. */
  predicate IsWord(word: string, v: Value)
  {
    || (word == "None" && v == Null)
    || (word == "True" && v == Bool(true))
    || (word == "False" && v == Bool(false))
  }

  lemma ReadsWord(s: string, word: string, v: Value)
    requires IsWord(word, v)
    requires word <= s
    ensures ReadValue(s) == Some((v, s[|word|..]))
  {
    assert s[0] == word[0];
  }

  lemma ReadsInt(s: string)
    requires |s| > 0 && (s[0] == '-' || IsDigit(s[0]))
    ensures ReadValue(s) == ReadInt(s)
  {
    assert s[0] != 'N' && s[0] != 'T' && s[0] != 'F' && s[0] != '"';
  }

  lemma ReadsStr(s: string)
    requires |s| > 0 && s[0] == '"'
    ensures ReadValue(s) == ReadStr(s)
  {
  }

  lemma ReadsList(s: string)
    requires |s| > 0 && s[0] == '['
    ensures ReadValue(s) == ReadList(s)
  {
  }

  lemma ReadsDict(s: string)
    requires |s| > 0 && s[0] == '{'
    ensures ReadValue(s) == ReadDict(s)
  {
  }

  // ---- reading texts back ----

  /** Digits followed by a non-digit read as that number. */
  lemma NatRead(m: nat, rest: string)
    requires rest == [] || !IsDigit(rest[0])
    ensures |NatDigits(m) + rest| > 0 && IsDigit((NatDigits(m) + rest)[0])
    ensures ReadInt(NatDigits(m) + rest) == Some((Int(m), rest))
  {
    var ds := NatDigits(m);
    NatDigitsRead(m);
    DigitRunOf(ds, rest);
    var s := ds + rest;
    assert s[0] == ds[0] && IsDigit(ds[0]);
    assert s[..|ds|] == ds;
    PyStr.DropFront(ds, rest);
  }

  /** A minus sign, digits and a non-digit read as the negated number. */
  lemma NegRead(m: nat, rest: string)
    requires rest == [] || !IsDigit(rest[0])
    ensures ReadInt("-" + (NatDigits(m) + rest)) == Some((Int(-(m as int)), rest))
  {
    var ds := NatDigits(m);
    NatDigitsRead(m);
    DigitRunOf(ds, rest);
    var t := "-" + (ds + rest);
    PyStr.DropFront("-", ds + rest);
    assert (ds + rest)[..|ds|] == ds;
    PyStr.DropFront(ds, rest);
    assert t[1..][..|ds|] == t[1..1 + |ds|];
    assert t[1..][|ds|..] == t[1 + |ds|..];
  }

  lemma IntRead(n: int, isPrintable: char -> bool, rest: string)
    requires rest == [] || !IsDigit(rest[0])
    ensures ReadValue(Text(Int(n), isPrintable) + rest) == Some((Int(n), rest))
  {
    assert Text(Int(n), isPrintable) == IntRepr(n);
    if n < 0 {
      NegReprRead(-n, rest);
    } else {
      NatReprRead(n, rest);
    }
  }

  lemma NatReprRead(m: nat, rest: string)
    requires rest == [] || !IsDigit(rest[0])
    ensures ReadValue(IntRepr(m) + rest) == Some((Int(m), rest))
  {
    NatRead(m, rest);
    ReadsInt(NatDigits(m) + rest);
  }

  lemma NegReprRead(m: nat, rest: string)
    requires m > 0
    requires rest == [] || !IsDigit(rest[0])
    ensures ReadValue(IntRepr(-(m as int)) + rest) == Some((Int(-(m as int)), rest))
  {
    var ds := NatDigits(m);
    assert IntRepr(-(m as int)) == "-" + ds;
    PyStr.Regroup3("-", ds, rest);
    ReadsInt("-" + (ds + rest));
    NegRead(m, rest);
  }

  lemma StrRead(t: string, isPrintable: char -> bool, rest: string)
    requires QuoteFreeStr(t)
    ensures ReadStr(Text(Str(t), isPrintable) + rest) == Some((Str(t), rest))
    ensures ReadValue(Text(Str(t), isPrintable) + rest) == Some((Str(t), rest))
  {
    var body := Escape(t, '\'', isPrintable);
    EscapeRead(t, isPrintable, rest);
    assert Text(Str(t), isPrintable) == "\"" + body + "\"";
    var s := "\"" + body + "\"" + rest;
    PyStr.Regroup("\"", body, "\"", rest);
    PyStr.Regroup3(body, "\"", rest);
    PyStr.DropFront("\"", body + ("\"" + rest));
    ReadsStr(s);
  }

  /** Reading a quote-free value's text gives the value back and leaves what follows. */
  lemma {:induction false} TextRoundTrip(v: Value, isPrintable: char -> bool, rest: string)
    requires QuoteFree(v)
    requires rest == [] || !IsDigit(rest[0])
    ensures ReadValue(Text(v, isPrintable) + rest) == Some((v, rest))
    decreases v, 0
  {
    match v
    case Null => WordRead(v, "None", isPrintable, rest);
    case Bool(b) =>
      if b {
        WordRead(v, "True", isPrintable, rest);
      } else {
        WordRead(v, "False", isPrintable, rest);
      }
    case Int(n) => IntRead(n, isPrintable, rest);
    case Str(t) => StrRead(t, isPrintable, rest);
    case List(items) => ListRead(items, isPrintable, rest);
    case Object(fields) => DictRead(fields, isPrintable, rest);
  }

  lemma WordRead(v: Value, word: string, isPrintable: char -> bool, rest: string)
    requires IsWord(word, v)
    ensures ReadValue(Text(v, isPrintable) + rest) == Some((v, rest))
  {
    assert Text(v, isPrintable) == word;
    var s := word + rest;
    assert word <= s && s[|word|..] == rest;
    ReadsWord(s, word, v);
  }

  lemma {:induction false} ListRead(items: seq<Value>, isPrintable: char -> bool, rest: string)
    requires QuoteFreeItems(items)
    ensures ReadValue(Text(List(items), isPrintable) + rest) == Some((List(items), rest))
    decreases items, 2
  {
    var inner := TextItems(items, isPrintable);
    var tail := "]" + rest;
    PyStr.Regroup("[", inner, "]", rest);
    var s := "[" + (inner + tail);
    ReadsList(s);
    PyStr.DropFront("[", inner + tail);
    if |items| == 0 {
      assert s[2..] == rest;
    } else {
      ItemsRead(items, isPrintable, tail, rest);
      assert inner[0] != ']' by {
        TextStart(items[0], isPrintable);
        assert Text(items[0], isPrintable) <= inner;
      }
    }
  }

  /** Items followed by `]` read back, leaving what follows the `]`. */
  lemma {:induction false} ItemsRead(items: seq<Value>, isPrintable: char -> bool, tail: string, rest: string)
    requires |items| > 0
    requires QuoteFreeItems(items)
    requires tail == "]" + rest
    ensures ReadItems(TextItems(items, isPrintable) + tail) == Some((items, rest))
    decreases items, 1
  {
    var first := Text(items[0], isPrintable);
    if |items| == 1 {
      TextRoundTrip(items[0], isPrintable, tail);
      PyStr.DropFront("]", rest);
      assert [items[0]] == items;
    } else {
      var more := TextItems(items[1..], isPrintable);
      var after := ", " + (more + tail);
      PyStr.Regroup(first, ", ", more, tail);
      TextRoundTrip(items[0], isPrintable, after);
      PyStr.DropFront(", ", more + tail);
      ItemsRead(items[1..], isPrintable, tail, rest);
      assert [items[0]] + items[1..] == items;
    }
  }

  lemma {:induction false} DictRead(fields: seq<Entry>, isPrintable: char -> bool, rest: string)
    requires QuoteFreeFields(fields)
    ensures ReadValue(Text(Object(fields), isPrintable) + rest) == Some((Object(fields), rest))
    decreases fields, 2
  {
    var inner := TextFields(fields, isPrintable);
    var tail := "}" + rest;
    PyStr.Regroup("{", inner, "}", rest);
    var s := "{" + (inner + tail);
    ReadsDict(s);
    PyStr.DropFront("{", inner + tail);
    if |fields| == 0 {
      assert s[2..] == rest;
    } else {
      FieldsRead(fields, isPrintable, tail, rest);
      assert inner[0] == '"' by {
        assert TextField(fields[0], isPrintable) <= inner;
      }
    }
  }

  /** One entry reads back whole, leaving `after`. */
  lemma {:induction false} EntryRead(e: Entry, isPrintable: char -> bool, after: string)
    requires QuoteFreeStr(e.key) && QuoteFree(e.val)
    requires after == [] || !IsDigit(after[0])
    ensures ReadEntry(TextField(e, isPrintable) + after) == Some((e, after))
    decreases e, 0
  {
    var valText := Text(e.val, isPrintable);
    var tail := ": " + (valText + after);
    PyStr.Regroup(Text(Str(e.key), isPrintable), ": ", valText, after);
    StrRead(e.key, isPrintable, tail);
    PyStr.DropFront(": ", valText + after);
    TextRoundTrip(e.val, isPrintable, after);
  }

  /** An entry followed by `, ` is read, then the reading goes on after the separator. */
  lemma FieldThenMore(e: Entry, isPrintable: char -> bool, more: string)
    requires QuoteFreeStr(e.key) && QuoteFree(e.val)
    ensures ReadFields(TextField(e, isPrintable) + (", " + more))
         == match ReadFields(more)
            case None => None
            case Some(fr) => Some(([e] + fr.0, fr.1))
    decreases e, 1
  {
    EntryRead(e, isPrintable, ", " + more);
    PyStr.DropFront(", ", more);
  }

  /** An entry followed by `}` is the last one. */
  lemma FieldThenClose(e: Entry, isPrintable: char -> bool, rest: string)
    requires QuoteFreeStr(e.key) && QuoteFree(e.val)
    ensures ReadFields(TextField(e, isPrintable) + ("}" + rest)) == Some(([e], rest))
    decreases e, 1
  {
    EntryRead(e, isPrintable, "}" + rest);
    PyStr.DropFront("}", rest);
  }

  /** Entries followed by `}` read back, leaving what follows the `}`. */
  lemma {:induction false} FieldsRead(fields: seq<Entry>, isPrintable: char -> bool, tail: string, rest: string)
    requires |fields| > 0
    requires QuoteFreeFields(fields)
    requires tail == "}" + rest
    ensures ReadFields(TextFields(fields, isPrintable) + tail) == Some((fields, rest))
    decreases fields, 1
  {
    var e := fields[0];
    if |fields| == 1 {
      FieldThenClose(e, isPrintable, rest);
      assert [e] == fields;
    } else {
      var more := TextFields(fields[1..], isPrintable);
      PyStr.Regroup(TextField(e, isPrintable), ", ", more, tail);
      FieldThenMore(e, isPrintable, more + tail);
      FieldsRead(fields[1..], isPrintable, tail, rest);
      assert [e] + fields[1..] == fields;
    }
  }

  /**
   Reading a quote-free value's literal gives the value back and leaves the
   following text untouched (a following digit would run into a number).
   */
  lemma LiteralRoundTrip(v: Value, isPrintable: char -> bool, rest: string)
    requires QuoteFree(v)
    requires rest == [] || !IsDigit(rest[0])
    ensures ReadValue(Literal(v, isPrintable) + rest) == Some((v, rest))
  {
    LiteralIsText(v, isPrintable);
    TextRoundTrip(v, isPrintable, rest);
  }
}
