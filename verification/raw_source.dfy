/**
 The "raw" CSL source: a header line, then one `const` declaration per
 configuration entry, in the document's order, whose value is the Python
 `repr` of the entry's value with every `'` turned into `"`.

 A reader for that text is the partner of the writer: for keys without
 spaces and values whose strings hold no quote character, reading the
 emitted text gives back the document exactly.
 */
module RawSource {
  import opened Wrappers
  import opened Json
  import PyStr
  import PyRepr
  import LiteralReader

  /** The opening comment, followed by a newline and four spaces of indentation. */
  const Header: string := "// autogenerated by compconf\n    "

  /** `const <key> = <literal>;` and a newline. */
  function RawLine(e: Entry, isPrintable: char -> bool): string
  {
    "const " + e.key + " = " + PyRepr.Literal(e.val, isPrintable) + ";\n"
  }

  function RawLines(d: Doc, isPrintable: char -> bool): string
  {
    if |d| == 0 then "" else RawLine(d[0], isPrintable) + RawLines(d[1..], isPrintable)
  }

  /**
   The raw source for a document. The text starts with the header, and a `'`
   appears in it exactly when some key contains one: no literal ever does.
   */
  function MakeCslRaw(d: Doc, isPrintable: char -> bool): (r: string)
    ensures Header <= r
    ensures ('\'' in r) <==> exists i :: 0 <= i < |d| && '\'' in d[i].key
  {
    LinesQuotes(d, isPrintable);
    Header + RawLines(d, isPrintable)
  }

  lemma {:induction false} LinesQuotes(d: Doc, isPrintable: char -> bool)
    ensures ('\'' in RawLines(d, isPrintable)) <==> exists i :: 0 <= i < |d| && '\'' in d[i].key
  {
    if |d| > 0 {
      LinesQuotes(d[1..], isPrintable);
      var lit := PyRepr.Literal(d[0].val, isPrintable);
      assert '\'' !in lit;
      assert ('\'' in RawLine(d[0], isPrintable)) <==> '\'' in d[0].key;
      if '\'' in d[0].key {
        assert 0 < |d| && '\'' in d[0].key;
      }
      if exists i :: 0 < i < |d| && '\'' in d[i].key {
        var i :| 0 < i < |d| && '\'' in d[i].key;
        assert d[1..][i - 1] == d[i];
      }
      if exists i :: 0 <= i < |d[1..]| && '\'' in d[1..][i].key {
        var i :| 0 <= i < |d[1..]| && '\'' in d[1..][i].key;
        assert d[i + 1] == d[1..][i];
      }
    }
  }

  // ---- reading the raw source back ----

  /** The declarations, each `const <key> = <literal>;` and a newline. */
  function ReadLines(s: string): Option<Doc>
    decreases |s|
  {
    if |s| == 0 then Some([])
    else if "const " <= s then
      var t := s[6..];
      var n := PyStr.RunBefore(t, ' ');
      var key := t[..n];
      var after := t[n..];
      if " = " <= after then
        match LiteralReader.ReadValue(after[3..])
        case None => None
        case Some(vr) =>
          if ";\n" <= vr.1 then
            match ReadLines(vr.1[2..])
            case None => None
            case Some(more) => Some([Entry(key, vr.0)] + more)
          else None
      else None
    else None
  }

  /** A raw source: the header, then the declarations. */
  function ReadRaw(s: string): Option<Doc>
  {
    if Header <= s then ReadLines(s[|Header|..]) else None
  }

  /** The documents whose raw source reads back: keys without spaces, values without quotes. */
  predicate Readable(d: Doc)
  {
    forall i :: 0 <= i < |d| ==> ' ' !in d[i].key && LiteralReader.QuoteFree(d[i].val)
  }

  /** One declaration reads back to its entry, leaving what follows it. */
  lemma LineRead(e: Entry, isPrintable: char -> bool, more: string)
    requires ' ' !in e.key && LiteralReader.QuoteFree(e.val)
    ensures "const " <= RawLine(e, isPrintable) + more
    ensures var t := (RawLine(e, isPrintable) + more)[6..];
            var n := PyStr.RunBefore(t, ' ');
            && t[..n] == e.key
            && " = " <= t[n..]
            && LiteralReader.ReadValue(t[n..][3..]) == Some((e.val, ";\n" + more))
  {
    var lit := PyRepr.Literal(e.val, isPrintable);
    var tail := " = " + (lit + (";\n" + more));
    PyStr.Regroup(e.key, " = ", lit, ";\n" + more);
    assert e.key + " = " + lit + ";\n" + more == e.key + tail by {
      PyStr.Regroup(e.key + " = ", lit, ";\n", more);
    }
    var s := RawLine(e, isPrintable) + more;
    assert s == "const " + (e.key + tail) by {
      PyStr.Regroup("const ", e.key, " = " + lit + ";\n", more);
      PyStr.Regroup(" = ", lit, ";\n", more);
    }
    PyStr.DropFront("const ", e.key + tail);
    var t := e.key + tail;
    assert PyStr.RunBefore(t, ' ') == |e.key| by {
      WordRunOf(e.key, tail);
    }
    PyStr.DropFront(e.key, tail);
    PyStr.DropFront(" = ", lit + (";\n" + more));
    LiteralReader.LiteralRoundTrip(e.val, isPrintable, ";\n" + more);
  }

  /** A word followed by a space is measured exactly. */
  lemma {:induction false} WordRunOf(w: string, tail: string)
    requires ' ' !in w
    requires |tail| > 0 && tail[0] == ' '
    ensures PyStr.RunBefore(w + tail, ' ') == |w|
    decreases |w|
  {
    if |w| > 0 {
      WordRunOf(w[1..], tail);
      assert (w + tail)[1..] == w[1..] + tail;
    } else {
      assert w + tail == tail;
    }
  }

  /** Reading a declaration and then the rest is reading the rest, with the entry in front. */
  lemma ReadLineStep(e: Entry, isPrintable: char -> bool, more: string)
    requires ' ' !in e.key && LiteralReader.QuoteFree(e.val)
    ensures ReadLines(RawLine(e, isPrintable) + more)
         == match ReadLines(more)
            case None => None
            case Some(m) => Some([e] + m)
  {
    LineRead(e, isPrintable, more);
    PyStr.DropFront(";\n", more);
  }

  lemma {:induction false} LinesRoundTrip(d: Doc, isPrintable: char -> bool)
    requires Readable(d)
    ensures ReadLines(RawLines(d, isPrintable)) == Some(d)
    decreases |d|
  {
    if |d| > 0 {
      ReadLineStep(d[0], isPrintable, RawLines(d[1..], isPrintable));
      assert Readable(d[1..]) by {
        forall i | 0 <= i < |d[1..]|
          ensures ' ' !in d[1..][i].key && LiteralReader.QuoteFree(d[1..][i].val)
        {
          assert d[1..][i] == d[i + 1];
        }
      }
      LinesRoundTrip(d[1..], isPrintable);
      assert [d[0]] + d[1..] == d;
    }
  }

  /**
   The raw source of a document whose keys have no spaces and whose strings
   hold no quote character reads back to the same document, entry by entry
   in the same order.
   */
  lemma RawRoundTrip(d: Doc, isPrintable: char -> bool)
    requires Readable(d)
    ensures ReadRaw(MakeCslRaw(d, isPrintable)) == Some(d)
  {
    PyStr.DropFront(Header, RawLines(d, isPrintable));
    LinesRoundTrip(d, isPrintable);
  }

  /**
   What the quote replacement does to a string holding an apostrophe:
   `repr` picks `"` as the delimiter, the replacement then turns the
   apostrophe into a second `"`, and the literal ends early, so the
   declared constant is a different value.
   */
  lemma ApostropheBreaksLiteral(isPrintable: char -> bool)
    ensures PyRepr.Literal(Str("it's"), isPrintable) == "\"it\"s\""
    ensures LiteralReader.ReadValue(PyRepr.Literal(Str("it's"), isPrintable) + ";\n")
         == Some((Str("it"), "s\";\n"))
  {
    ApostropheLiteral(isPrintable);
    ReadItBack();
  }

  lemma ApostropheLiteral(isPrintable: char -> bool)
    ensures PyRepr.Literal(Str("it's"), isPrintable) == "\"it\"s\""
  {
    ApostropheRepr(isPrintable);
    PyStr.ReplaceCharAppend("\"it" + "'", "s\"", '\'', "\"");
    PyStr.ReplaceCharAppend("\"it", "'", '\'', "\"");
    PyStr.ReplaceCharAbsent("\"it", '\'', "\"");
    PyStr.ReplaceCharAbsent("s\"", '\'', "\"");
    assert PyStr.Replace("'", "'", "\"") == "\"";
  }

  /** A printable ASCII character other than the delimiter and `\\` is written as itself. */
  lemma PlainChar(c: char, q: char, isPrintable: char -> bool)
    requires 0x20 <= c as int < 0x7f && c != q && c != '\\'
    ensures PyRepr.EscapeChar(c, q, isPrintable) == [c]
  {
  }

  /** `repr("it's")` is `"it's"`: delimited by `"`, nothing escaped. */
  lemma ApostropheRepr(isPrintable: char -> bool)
    ensures PyRepr.Repr(Str("it's"), isPrintable) == "\"it" + "'" + "s\""
  {
    var t := "it's";
    assert PyRepr.QuoteFor(t) == '"';
    PlainChar('i', '"', isPrintable);
    PlainChar('t', '"', isPrintable);
    PlainChar('\'', '"', isPrintable);
    PlainChar('s', '"', isPrintable);
    assert t[3..][1..] == [];
    assert PyRepr.Escape(t[3..], '"', isPrintable) == "s";
    assert t[2..][1..] == t[3..];
    assert PyRepr.Escape(t[2..], '"', isPrintable) == "'" + "s";
    assert t[1..][1..] == t[2..];
    assert PyRepr.Escape(t[1..], '"', isPrintable) == "t" + ("'" + "s");
    assert PyRepr.Escape(t, '"', isPrintable) == "i" + ("t" + ("'" + "s"));
  }

  lemma ReadItBack()
    ensures LiteralReader.ReadValue("\"it\"s\"" + ";\n") == Some((Str("it"), "s\";\n"))
  {
    var s := "\"it\"s\"" + ";\n";
    var body := s[1..];
    assert body[2..] == "\"s\";\n";
    assert LiteralReader.ReadStrBody(body[2..]) == Some(("", "s\";\n"));
    assert body[1..][1..] == body[2..] && body[1..][0] == 't';
    assert ['t'] + "" == "t";
    assert LiteralReader.ReadStrBody(body[1..]) == Some(("t", "s\";\n"));
    assert body[0] == 'i' && ['i'] + "t" == "it";
    assert LiteralReader.ReadStrBody(body) == Some(("it", "s\";\n"));
    LiteralReader.ReadsStr(s);
  }
}
