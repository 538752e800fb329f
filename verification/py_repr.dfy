/**
 Python's `repr` of a JSON value, and the literal the raw-constants source
 writes: that `repr` with every `'` turned into `"`.
 */
module PyRepr {
  import opened Json
  import PyStr

  function Pow16(w: nat): nat
  {
    if w == 0 then 1 else 16 * Pow16(w - 1)
  }

  function HexDigit(d: nat): char
    requires d < 16
  {
    if d < 10 then ('0' as int + d) as char else ('a' as int + d - 10) as char
  }

  /** `n` as exactly `width` lower-case hex digits, most significant first. */
  function Hex(n: nat, width: nat): (r: string)
    requires n < Pow16(width)
    ensures |r| == width
    decreases width
  {
    if width == 0 then ""
    else
      assert n / 16 < Pow16(width - 1);
      Hex(n / 16, width - 1) + [HexDigit(n % 16)]
  }

  function DecDigit(d: nat): char
    requires d < 10
  {
    ('0' as int + d) as char
  }

  /** The decimal digits of `n`, without leading zeros. */
  function NatDigits(n: nat): (r: string)
    ensures |r| > 0
    decreases n
  {
    if n < 10 then [DecDigit(n)] else NatDigits(n / 10) + [DecDigit(n % 10)]
  }

  /** `repr(n)` for an int. */
  function IntRepr(n: int): string
  {
    if n < 0 then "-" + NatDigits(-n) else NatDigits(n)
  }

  /** `repr` quotes with `'` unless the text has a `'` and no `"`. */
  function QuoteFor(s: string): char
  {
    if '\'' in s && '"' !in s then '"' else '\''
  }

  /**
   How `repr` writes one character of a string quoted with `q`. For
   characters above U+007F the outcome depends on Python's Unicode
   printability table, given here as `isPrintable`.
   */
  function EscapeChar(c: char, q: char, isPrintable: char -> bool): (r: string)
    ensures r == [c] || (|r| >= 2 && r[0] == '\\')
    ensures r == [c] ==> c != q && c != '\\'
  {
    var n := c as int;
    if c == q || c == '\\' then ['\\', c]
    else if c == '\t' then "\\t"
    else if c == '\n' then "\\n"
    else if c == '\r' then "\\r"
    else if n < 0x20 || n == 0x7f then "\\x" + Hex(n, 2)
    else if n < 0x7f then [c]
    else if isPrintable(c) then [c]
    else if n <= 0xff then "\\x" + Hex(n, 2)
    else if n <= 0xffff then "\\u" + Hex(n, 4)
    else "\\U" + Hex(n, 8)
  }

  function Escape(s: string, q: char, isPrintable: char -> bool): string
  {
    if |s| == 0 then "" else EscapeChar(s[0], q, isPrintable) + Escape(s[1..], q, isPrintable)
  }

  /** `repr(s)` for a string. */
  function StrRepr(s: string, isPrintable: char -> bool): (r: string)
    ensures |r| >= 2 && r[0] == QuoteFor(s) && r[|r| - 1] == QuoteFor(s)
  {
    var q := QuoteFor(s);
    [q] + Escape(s, q, isPrintable) + [q]
  }

  /** `repr(v)`: `None`, `True`/`False`, ints, strings, `[a, b]`, `{'k': v}`. */
  function Repr(v: Value, isPrintable: char -> bool): string
  {
    match v
    case Null => "None"
    case Bool(b) => if b then "True" else "False"
    case Int(n) => IntRepr(n)
    case Str(s) => StrRepr(s, isPrintable)
    case List(items) => "[" + ReprItems(items, isPrintable) + "]"
    case Object(fields) => "{" + ReprFields(fields, isPrintable) + "}"
  }

  /** The items of a list, separated by `, `. */
  function ReprItems(items: seq<Value>, isPrintable: char -> bool): string
  {
    if |items| == 0 then ""
    else if |items| == 1 then Repr(items[0], isPrintable)
    else Repr(items[0], isPrintable) + ", " + ReprItems(items[1..], isPrintable)
  }

  /** The entries of a dict as `'key': value`, separated by `, `. */
  function ReprFields(fields: seq<Entry>, isPrintable: char -> bool): string
  {
    if |fields| == 0 then ""
    else if |fields| == 1 then ReprField(fields[0], isPrintable)
    else ReprField(fields[0], isPrintable) + ", " + ReprFields(fields[1..], isPrintable)
  }

  function ReprField(e: Entry, isPrintable: char -> bool): string
  {
    StrRepr(e.key, isPrintable) + ": " + Repr(e.val, isPrintable)
  }

  /**
   The literal written for a value in the raw-constants source:
   `repr(value).replace("'", '"')`. It never contains a `'`.
   */
  function Literal(v: Value, isPrintable: char -> bool): (r: string)
    ensures '\'' !in r
  {
    PyStr.ReplaceCharRemoves(Repr(v, isPrintable), '\'', "\"");
    PyStr.Replace(Repr(v, isPrintable), "'", "\"")
  }
}
